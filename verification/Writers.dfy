// Retained writers: the binding index and the authentication tree edited together.
module Writers {
  import opened Words
  import opened Geometry
  import opened Nodes
  import opened Bits
  import opened Coordinates
  import opened ListTree
  import opened MapTree
  import opened MapBuild
  import opened MapUpdate
  import opened ListReplace
  import opened SequenceUpdate
  import opened Workspaces
  import opened Grouping
  import opened Engine
  import opened Bindings
  import opened RetainedIndex

  // One verified complete set of relations. Writers are never changed: an update
  // gives a new one.
  datatype Writer = Writer(layout: Layout, root: Ref, previous: Option<Ref>, payload: Option<Target>,
                           bindings: Index, nodes: Retained)

  // ---- What the retained relations denote ----

  ghost function EntryOf(item: Option<Item>): Option<Entry> {
    if item.Some? then Some(Entry(item.value.name, item.value.target)) else None
  }

  // The Map the relations stand for.
  ghost function MapOf(c: map<Path, Item>): map<Key, Entry> {
    map k | k in (set p | p in c && c[p].at.AtKey? && BindingKey(c[p].at) == p :: c[p].at.key)
      :: Entry(c[BindingKey(AtKey(k))].name, c[BindingKey(AtKey(k))].target)
  }

  lemma MapOfLook(derive: Deriver, c: map<Path, Item>, k: Key)
    requires Keyed(derive, MapLayout, c)
    ensures Look(MapOf(c), k) == EntryOf(Current(c, AtKey(k)))
    ensures Current(c, AtKey(k)).Some? ==> (
      Current(c, AtKey(k)).value.at == AtKey(k) && derive(Current(c, AtKey(k)).value.name) == Some(AtKey(k)))
  {
    hide BindingKey;
    var p := BindingKey(AtKey(k));
    if p in c {
      BindingKeyInjective(c[p].at, AtKey(k));
    }
  }

  // The list the relations stand for.
  ghost function ItemsOf(c: map<Path, Item>): (items: seq<Target>)
    requires |c| < TWO64
    ensures |items| == |c|
    ensures c.Keys == IndexKeys(|c|) ==> forall i: U64 :: i < |c| ==> (
      Current(c, AtIndex(i)).Some? && items[i] == Current(c, AtIndex(i)).value.target)
  {
    assert c.Keys == IndexKeys(|c|) ==> forall i: U64 :: i < |c| ==> BindingKey(AtIndex(i)) in c;
    seq(|c|, i requires 0 <= i < |c| => if BindingKey(AtIndex(i)) in c then c[BindingKey(AtIndex(i))].target else [])
  }

  // The root a complete construction of the relations gives.
  ghost predicate Denotes(b: Radix, layout: Layout, c: map<Path, Item>, payload: Option<Target>, root: Ref) {
    if layout == MapLayout then payload == None && root == MapRoot(b, MapOf(c))
    else |c| < TWO64 && c.Keys == IndexKeys(|c|) && root == ListRoot(b, ItemsOf(c), payload)
  }

  // The index and the tree of a writer agree.
  ghost predicate Agrees(b: Radix, derive: Deriver, w: Writer) {
    && Sound(w.bindings) && Keyed(derive, w.layout, Contents(w.bindings))
    && w.nodes.ref == w.root && w.nodes.Faithful(b)
    && Denotes(b, w.layout, Contents(w.bindings), w.payload, w.root)
  }

  // Writers that agree are determined by their relations and payload, root and
  // index alike, whatever the edits that led to them.
  lemma AgreementUnique(b: Radix, derive: Deriver, w: Writer, v: Writer)
    requires Agrees(b, derive, w) && Agrees(b, derive, v) && w.layout == v.layout
    ensures Contents(w.bindings) == Contents(v.bindings) && w.payload == v.payload
      ==> w.root == v.root && w.bindings == v.bindings
  {
    hide MapRoot, ListRoot, MapOf, ItemsOf, Keyed, Retained.Faithful;
    IndexUnique(w.bindings, v.bindings);
  }

  // ---- The tree edits a delta compiles to ----

  lemma MapDerived(derive: Deriver, c: map<Path, Item>)
    requires Keyed(derive, MapLayout, c)
    ensures Derived(derive, MapOf(c))
  {
    hide BindingKey, MapOf, Keyed;
    forall k | k in MapOf(c)
      ensures derive(MapOf(c)[k].name) == Some(AtKey(k))
    {
      MapOfLook(derive, c, k);
      assert Look(MapOf(c), k).Some?;
    }
  }

  // The replacements of accepted changes are a good batch that the tree accepts.
  lemma MapBatch(derive: Deriver, c: map<Path, Item>, count: nat, oldCount: nat, changes: seq<LabelChange>)
    requires Keyed(derive, MapLayout, c) && AllSuit(derive, MapLayout, c, count, changes)
    ensures var repl := Replacements(MapLayout, oldCount, Placed(derive, changes));
      GoodBatch(derive, MapLayout, repl)
    ensures var repl := Replacements(MapLayout, oldCount, Placed(derive, changes));
      (forall ch :: ch in repl ==> ch.at.AtKey?) && Accepted(MapOf(c), KeyChanges(repl))
  {
    hide BindingKey, MapOf, Suits, Keyed, AllSuit;
    var placed := Placed(derive, changes);
    var repl := Replacements(MapLayout, oldCount, placed);
    AllDistinct(derive, MapLayout, c, count, changes);
    ReplacementsDistinct(MapLayout, oldCount, placed);
    forall ch | ch in repl
      ensures ChangeFault(derive, MapLayout, ch) == None && ch.at.AtKey?
      ensures ch.at.AtKey? ==>
        Verdict(Look(MapOf(c), ch.at.key), KeyChange(ch.at.key, ch.name, ch.before, ch.after)) == None
    {
      PlacedSuits(derive, MapLayout, c, count, changes, ch);
      MapOfLook(derive, c, ch.at.key);
    }
    forall k | k in KeyChanges(repl)
      ensures Verdict(Look(MapOf(c), k.key), k) == None
    {
      var i :| 0 <= i < |repl| && KeyChanges(repl)[i] == k;
      assert repl[i] in repl;
    }
  }

  lemma AllDistinct(derive: Deriver, layout: Layout, c: map<Path, Item>, count: nat, changes: seq<LabelChange>)
    requires AllSuit(derive, layout, c, count, changes)
    ensures Distinct(Placed(derive, changes), AtOf())
  {
  }

  // Idle changes write what is already there.
  lemma MapPatched(derive: Deriver, c: map<Path, Item>, count: nat, oldCount: nat, changes: seq<LabelChange>)
    requires Keyed(derive, MapLayout, c) && AllSuit(derive, MapLayout, c, count, changes)
    ensures Keyed(derive, MapLayout, Writes(c, Placed(derive, changes)))
    ensures var repl := Replacements(MapLayout, oldCount, Placed(derive, changes));
      && (forall ch :: ch in repl ==> ch.at.AtKey?)
      && Patch(MapOf(c), KeyChanges(repl)) == MapOf(Writes(c, Placed(derive, changes)))
  {
    hide BindingKey, MapOf, Suits, Keyed, AllSuit, Patch, Writes, LabelCoordinate, Replacements;
    var placed := Placed(derive, changes);
    var repl := Replacements(MapLayout, oldCount, placed);
    MapBatch(derive, c, count, oldCount, changes);
    AllDistinct(derive, MapLayout, c, count, changes);
    forall ch | ch in placed
      ensures LabelCoordinate(derive, MapLayout, ch.name) == Ok(ch.at)
    {
      PlacedSuits(derive, MapLayout, c, count, changes, ch);
    }
    WritesKeyed(derive, MapLayout, c, placed);
    var x, y := Patch(MapOf(c), KeyChanges(repl)), MapOf(Writes(c, placed));
    forall k
      ensures Look(x, k) == Look(y, k)
    {
      MapPatchedAt(derive, c, count, oldCount, changes, k);
    }
    SameMap(x, y);
  }

  lemma MapPatchedAt(derive: Deriver, c: map<Path, Item>, count: nat, oldCount: nat, changes: seq<LabelChange>, k: Key)
    requires Keyed(derive, MapLayout, c) && AllSuit(derive, MapLayout, c, count, changes)
    requires Keyed(derive, MapLayout, Writes(c, Placed(derive, changes)))
    ensures var repl := Replacements(MapLayout, oldCount, Placed(derive, changes));
      && (forall ch :: ch in repl ==> ch.at.AtKey?)
      && Look(Patch(MapOf(c), KeyChanges(repl)), k) == Look(MapOf(Writes(c, Placed(derive, changes))), k)
  {
    hide BindingKey, MapOf, Suits, Keyed, AllSuit, Writes, Replacements, LabelCoordinate, Patch, EntryAfter, Distinct,
      Accepted, GoodBatch, Placed;
    var placed := Placed(derive, changes);
    var repl := Replacements(MapLayout, oldCount, placed);
    MapBatch(derive, c, count, oldCount, changes);
    KeyBatch(derive, repl);
    AllDistinct(derive, MapLayout, c, count, changes);
    MapOfLook(derive, c, k);
    MapOfLook(derive, Writes(c, placed), k);
    WritesAt(c, placed, AtKey(k));
    var ks := KeyChanges(repl);
    EntryAfterIs(ks, k, Look(MapOf(c), k));
    if ch :| ch in placed && ch.at == AtKey(k) {
      PlacedSuits(derive, MapLayout, c, count, changes, ch);
      if ch.before != ch.after {
        assert ch in repl;
        var i :| 0 <= i < |repl| && repl[i] == ch;
        assert ks[i] in ks;
      } else {
        OnlyReplaced(placed, repl, ch);
        assert forall e :: e in ks ==> e.key != k;
      }
    } else {
      assert forall e :: e in ks ==> e.key != k;
    }
  }

  // An idle change is the only one at its coordinate, so nothing replaces there.
  lemma OnlyReplaced(placed: seq<Change>, repl: seq<Change>, ch: Change)
    requires Distinct(placed, AtOf()) && ch in placed && ch !in repl && forall x :: x in repl ==> x in placed
    ensures forall x :: x in repl ==> x.at != ch.at
  {
    forall x | x in repl
      ensures x.at != ch.at
    {
      DistinctMembers(placed, x, ch, AtOf());
    }
  }

  method EditMapTree(nodes: Workspace, derive: Deriver, root: Ref, repl: seq<Change>,
                     ghost c: map<Path, Item>, ghost count: nat, ghost changes: seq<LabelChange>)
    returns (r: Result<Ref, Error>)
    requires nodes.Valid() && root in nodes.known && root.layout == MapLayout
    requires root == MapRoot(nodes.b, MapOf(c)) && Keyed(derive, MapLayout, c)
    requires AllSuit(derive, MapLayout, c, count, changes)
    requires repl == Replacements(MapLayout, |c|, Placed(derive, changes))
    modifies nodes
    ensures nodes.Valid()
    ensures r == Ok(MapRoot(nodes.b, MapOf(Writes(c, Placed(derive, changes))))) && r.value in nodes.known
  {
    hide MapRoot, MapOf, Keyed, AllSuit, Writes, Placed, Replacements, Patch, Accepted, GoodBatch, Workspace.Valid;
    MapDerived(derive, c);
    MapBatch(derive, c, count, |c|, changes);
    MapPatched(derive, c, count, |c|, changes);
    PatchNone(MapOf(c));
    assert KeyChanges([]) == [];
    r := ApplyMap(nodes, derive, root, repl, MapOf(c));
  }

  lemma ListBatch(derive: Deriver, c: map<Path, Item>, count: nat, changes: seq<LabelChange>)
    requires Keyed(derive, ListLayout, c) && AllSuit(derive, ListLayout, c, count, changes)
    requires |c| < TWO64 && c.Keys == IndexKeys(|c|)
    ensures var repl := Replacements(ListLayout, |c|, Placed(derive, changes));
      && GoodBatch(derive, ListLayout, repl)
      && (forall ch :: ch in repl ==> ch.at.AtIndex? && ch.before.Some? && ch.after.Some?)
      && Matches(ItemsOf(c), Edits(repl), 0)
  {
    hide BindingKey, ItemsOf, Suits, Keyed, AllSuit;
    var placed := Placed(derive, changes);
    var repl := Replacements(ListLayout, |c|, placed);
    AllDistinct(derive, ListLayout, c, count, changes);
    ReplacementsDistinct(ListLayout, |c|, placed);
    forall ch | ch in repl
      ensures ChangeFault(derive, ListLayout, ch) == None && ch.at.AtIndex? && ch.before.Some? && ch.after.Some?
      ensures ch.at.AtIndex? && ch.at.index < |c| && ch.before == Some(ItemsOf(c)[ch.at.index])
    {
      PlacedSuits(derive, ListLayout, c, count, changes, ch);
      assert ch.at == AtIndex(ch.at.index);
    }
    forall e | e in Edits(repl)
      ensures Hit(ItemsOf(c), e, 0)
    {
      var i :| 0 <= i < |repl| && Edits(repl)[i] == e;
      assert repl[i] in repl;
    }
  }

  // Below both counts, the replaced list holds what the index holds.
  lemma ListPatchedAt(derive: Deriver, c: map<Path, Item>, delta: Delta, i: U64)
    requires Keyed(derive, ListLayout, c) && |c| < TWO64 && c.Keys == IndexKeys(|c|)
    requires DeltaOk(derive, ListLayout, c, delta)
    requires i < |c| && i < CountAfter(ListLayout, c, delta) < TWO64
    requires var repl := Replacements(ListLayout, |c|, Placed(derive, delta.changes));
      && GoodBatch(derive, ListLayout, repl)
      && (forall ch :: ch in repl ==> ch.at.AtIndex? && ch.before.Some? && ch.after.Some?)
    ensures var repl := Replacements(ListLayout, |c|, Placed(derive, delta.changes));
      var now := Current(After(derive, ListLayout, c, delta), AtIndex(i));
      now.Some? && Patched(ItemsOf(c), Edits(repl), 0)[i] == now.value.target
  {
    hide BindingKey, ItemsOf, Suits, Keyed, AllSuit, Writes, Replacements, LabelCoordinate, AfterAt, Distinct,
      GoodBatch, Placed, Less;
    var count, changes := CountAfter(ListLayout, c, delta), delta.changes;
    var placed := Placed(derive, changes);
    var repl := Replacements(ListLayout, |c|, placed);
    var kept := Kept(ListLayout, c, count);
    var es := Edits(repl);
    AllDistinct(derive, ListLayout, c, count, changes);
    EditBatch(derive, repl);
    AfterAtIs(es, i, ItemsOf(c)[i]);
    WritesAt(kept, placed, AtIndex(i));
    KeptAt(c, count, i);
    if ch :| ch in placed && ch.at == AtIndex(i) {
      PlacedSuits(derive, ListLayout, c, count, changes, ch);
      if ch.before != ch.after {
        assert ch in repl;
        var j :| 0 <= j < |repl| && repl[j] == ch;
        assert es[j] in es;
      } else {
        OnlyReplaced(placed, repl, ch);
        NoneAt(repl, i);
      }
    } else {
      NoneAt(repl, i);
    }
  }

  lemma NoneAt(repl: seq<Change>, i: U64)
    requires forall ch :: ch in repl ==> ch.at.AtIndex? && ch.before.Some? && ch.after.Some?
    requires forall ch :: ch in repl ==> ch.at != AtIndex(i)
    ensures forall e :: e in Edits(repl) ==> e.index != i
  {
    forall e | e in Edits(repl)
      ensures e.index != i
    {
      var j :| 0 <= j < |repl| && Edits(repl)[j] == e;
      assert repl[j] in repl;
    }
  }

  lemma KeptAt(c: map<Path, Item>, count: nat, i: U64)
    requires i < count < TWO64
    ensures Current(Kept(ListLayout, c, count), AtIndex(i)) == Current(c, AtIndex(i))
  {
    hide BindingKey, Less;
    IndexOrder(i, count);
  }

  lemma DeltaFacts(derive: Deriver, c: map<Path, Item>, delta: Delta)
    requires DeltaOk(derive, ListLayout, c, delta)
    ensures var count := CountAfter(ListLayout, c, delta);
      && AllSuit(derive, ListLayout, c, count, delta.changes)
      && count <= TWO64 && After(derive, ListLayout, c, delta).Keys == IndexKeys(count)
  {
  }

  // The targets at the positions after `n`.
  ghost predicate TailIs(a: map<Path, Item>, n: nat, tail: seq<Target>) {
    && n + |tail| < TWO64
    && forall i :: n <= i < n + |tail| ==> (
      Current(a, AtIndex(i)).Some? && tail[i - n] == Current(a, AtIndex(i)).value.target)
  }

  // The list a delta leaves: the replaced list cut to the count, or followed by
  // the appended targets.
  lemma ListAfter(derive: Deriver, c: map<Path, Item>, delta: Delta, repl: seq<Change>, patched: seq<Target>,
                  a: map<Path, Item>, count: nat, tail: seq<Target>)
    requires Keyed(derive, ListLayout, c) && |c| < TWO64 && c.Keys == IndexKeys(|c|)
    requires DeltaOk(derive, ListLayout, c, delta)
    requires count == CountAfter(ListLayout, c, delta) < TWO64 && a == After(derive, ListLayout, c, delta)
    requires repl == Replacements(ListLayout, |c|, Placed(derive, delta.changes)) && GoodBatch(derive, ListLayout, repl)
    requires forall ch :: ch in repl ==> ch.at.AtIndex? && ch.before.Some? && ch.after.Some?
    requires patched == Patched(ItemsOf(c), Edits(repl), 0)
    requires TailIs(a, |c|, tail) && |tail| == Max(count, |c|) - |c|
    ensures |a| == count && ItemsOf(a) == patched[..Min(count, |c|)] + tail
  {
    hide BindingKey, ItemsOf, Keyed, AllSuit, Writes, Replacements, Distinct, GoodBatch, Placed, Less, After, Current,
      Patched, DeltaOk, CountAfter, IndexKeys, Edits, Kept;
    DeltaFacts(derive, c, delta);
    IndexKeysSize(count);
    assert |a| == |a.Keys|;
    var want := patched[..Min(count, |c|)] + tail;
    forall i | 0 <= i < count
      ensures ItemsOf(a)[i] == want[i]
    {
      if i < |c| {
        ListPatchedAt(derive, c, delta, i);
      }
    }
  }

  method EditListTree(nodes: Workspace, derive: Deriver, root: Ref, repl: seq<Change>, count: U64, oldCount: U64,
                      bindings: Index, payload: Option<Target>, next: Option<Target>,
                      ghost c: map<Path, Item>, ghost delta: Delta)
    returns (r: Result<Ref, Error>)
    requires nodes.Valid() && root in nodes.known && root.layout == ListLayout
    requires |c| < TWO64 && c.Keys == IndexKeys(|c|) && Keyed(derive, ListLayout, c)
    requires DeltaOk(derive, ListLayout, c, delta)
    requires root == ListRoot(nodes.b, ItemsOf(c), payload)
    requires oldCount == |c| && count == CountAfter(ListLayout, c, delta)
    requires Sound(bindings) && Contents(bindings) == After(derive, ListLayout, c, delta)
    requires repl == Replacements(ListLayout, |c|, Placed(derive, delta.changes))
    modifies nodes
    ensures nodes.Valid()
    ensures |Contents(bindings)| == count < TWO64
    ensures r == Ok(ListRoot(nodes.b, ItemsOf(Contents(bindings)), next)) && r.value in nodes.known
  {
    hide ListRoot, ItemsOf, Keyed, AllSuit, Writes, Placed, Replacements, Patched, Matches, GoodBatch, Workspace.Valid,
      After, BindingKey, Bindings.Sound, Bindings.Contents, DeltaOk, CountAfter, TailIs, IndexKeys, Current, Defined,
      HeightOf, BatchFault;
    DeltaFacts(derive, c, delta);
    ghost var b, items, a := nodes.b, ItemsOf(c), Contents(bindings);
    ListBatch(derive, c, count, delta.changes);
    ghost var patched := Patched(items, Edits(repl), 0);
    NoEdits(items, 0);
    var replaced := ApplyList(nodes, derive, root, repl, items, payload);
    var at := replaced.value;
    ghost var list := patched;
    if count < oldCount {
      var cut := Truncate(nodes, at, count, patched, payload);
      at, list := cut.value, patched[..count];
    }
    var targets, tail := Appended(bindings, oldCount, count, derive, c, delta);
    if count > oldCount {
      var grown := AppendBatch(nodes, at, targets, patched, payload);
      at, list := grown.value.0, patched + tail;
    }
    ListAfter(derive, c, delta, repl, patched, a, count, tail);
    assert list == ItemsOf(a);
    if next != payload {
      var set_ := SetPayload(nodes, at, next, list, payload);
      at := set_.value;
    }
    return Ok(at);
  }

  // The targets at the new positions, read from the edited index.
  method Appended(bindings: Index, oldCount: U64, count: U64, derive: Deriver, ghost c: map<Path, Item>,
                  ghost delta: Delta)
    returns (targets: seq<Option<Target>>, ghost tail: seq<Target>)
    requires |c| < TWO64 && c.Keys == IndexKeys(|c|) && Keyed(derive, ListLayout, c)
    requires DeltaOk(derive, ListLayout, c, delta)
    requires oldCount == |c| && count == CountAfter(ListLayout, c, delta)
    requires Sound(bindings) && Contents(bindings) == After(derive, ListLayout, c, delta)
    ensures |tail| == Max(count, oldCount) - oldCount && TailIs(Contents(bindings), oldCount, tail)
    ensures |targets| == |tail| && None !in targets && Defined(targets) == tail
  {
    hide Keyed, BindingKey, Bindings.Sound, Bindings.Contents, After, AllSuit;
    targets, tail := [], [];
    var i: nat := oldCount;
    while i < count
      invariant oldCount <= i && |tail| == i - oldCount && (i <= count || i == oldCount)
      invariant forall j :: oldCount <= j < i ==> (
        Current(Contents(bindings), AtIndex(j)).Some?
        && tail[j - oldCount] == Current(Contents(bindings), AtIndex(j)).value.target)
      invariant |targets| == |tail| && forall j :: 0 <= j < |tail| ==> targets[j] == Some(tail[j])
    {
      assert BindingKey(AtIndex(i)) in IndexKeys(count);
      var entry := Get(bindings, BindingKey(AtIndex(i)));
      targets, tail := targets + [Some(entry.value.target)], tail + [entry.value.target];
      i := i + 1;
    }
  }
}
