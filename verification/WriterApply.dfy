// Applying a delta to a retained writer.
module WriterApply {
  import opened Words
  import opened Geometry
  import opened Nodes
  import opened Bits
  import opened Coordinates
  import opened ListTree
  import opened MapTree
  import opened Workspaces
  import opened Bindings
  import opened RetainedIndex
  import opened Writers

  // The payload a delta leaves.
  function PayloadAfter(payload: Option<Target>, delta: Delta): Option<Target> {
    if delta.payload.Some? then delta.payload.value else payload
  }

  // What a delta makes of a writer: the relations it asks for, index and tree
  // still in agreement, and the link to the previous root.
  ghost predicate Steps(b: Radix, derive: Deriver, w: Writer, delta: Delta, next: Writer) {
    && Agrees(b, derive, next) && next.layout == w.layout
    && Contents(next.bindings) == After(derive, w.layout, Contents(w.bindings), delta)
    && next.payload == PayloadAfter(w.payload, delta)
    && next.previous == if next.root == w.root then w.previous else Some(w.root)
  }

  // The index side: every check is made here, before the tree is touched.
  method PlanDelta(derive: Deriver, layout: Layout, bindings: Index, delta: Delta)
    returns (r: Result<(Index, seq<Change>), Error>)
    requires Sound(bindings) && Keyed(derive, layout, Contents(bindings))
    requires layout == ListLayout ==>
      |Contents(bindings)| < TWO64 && Contents(bindings).Keys == IndexKeys(|Contents(bindings)|)
    ensures r.Ok? <==> DeltaOk(derive, layout, Contents(bindings), delta)
    ensures r.Err? ==> DeltaRefused(derive, layout, Contents(bindings), delta, r.error)
    ensures r.Ok? ==> Sound(r.value.0) && Contents(r.value.0) == After(derive, layout, Contents(bindings), delta)
    ensures r.Ok? ==> Keyed(derive, layout, Contents(r.value.0))
    ensures r.Ok? ==> r.value.1 == Replacements(layout, |Contents(bindings)|, Placed(derive, delta.changes))
  {
    hide Keyed, BindingKey, Bindings.Sound, Bindings.Contents, AllSuit, Writes, Replacements, Placed, IndexKeys,
      Below, Less, ChangesRefused, NamesIndex;
    ghost var c := Contents(bindings);
    var oldCount := Count(bindings);
    if layout == MapLayout && (delta.count.Some? || delta.payload.Some?) {
      return Err(BadNode);
    }
    var count := if layout == ListLayout && delta.count.Some? then delta.count.value else oldCount;
    if layout == ListLayout && count > oldCount && count - oldCount > |delta.changes| {
      TooFew(derive, c, delta);
      EarlyRefusal(derive, c, delta);
      return Err(OutOfRange);
    }
    var start := bindings;
    if layout == ListLayout && count < oldCount {
      BeforeRestricts(bindings, BindingKey(AtIndex(count)));
      start := Before(bindings, BindingKey(AtIndex(count)));
    }
    assert Contents(start) == Kept(layout, c, count);
    r := Accept(derive, layout, bindings, start, oldCount, count, delta.changes);
    if r.Ok? {
      if layout == ListLayout {
        var size := Count(r.value.0);
        EarlyRefusal(derive, c, delta);
        if size != count {
          NotDense(derive, c, delta);
          return Err(OutOfRange);
        }
      } else {
        MapKeyed(derive, c, count, delta.changes);
      }
    }
  }

  // Fewer changes than indices gained leave one of them unnamed.
  lemma TooFew(derive: Deriver, c: map<Path, Item>, delta: Delta)
    requires Whole(derive, ListLayout, c)
    requires delta.count.Some? && delta.count.value > |c| + |delta.changes|
    ensures exists i: U64 :: |c| <= i < delta.count.value && !NamesIndex(derive, delta.changes, i)
  {
    hide Keyed, IndexKeys;
    var n, count := |c|, delta.count.value;
    if forall i: U64 :: n <= i < count ==> NamesIndex(derive, delta.changes, i) {
      NamedCount(derive, delta.changes, n, count);
    }
  }

  lemma {:induction false} NamedCount(derive: Deriver, changes: seq<LabelChange>, n: nat, count: U64)
    requires n <= count && forall i: U64 :: n <= i < count ==> NamesIndex(derive, changes, i)
    ensures count - n <= |changes|
  {
    var named := set l | l in changes :: derive(l.name);
    var gained := set i: U64 | n <= i < count :: Some(AtIndex(i));
    NamedSize(derive, changes);
    GainedSize(n, count);
    forall i: U64 | n <= i < count
      ensures Some(AtIndex(i)) in named
    {
      assert NamesIndex(derive, changes, i);
    }
    assert gained <= named;
    SubsetSize(gained, named);
  }

  lemma {:induction false} NamedSize(derive: Deriver, changes: seq<LabelChange>)
    ensures |set l | l in changes :: derive(l.name)| <= |changes|
  {
    if changes != [] {
      var k := |changes| - 1;
      NamedSize(derive, changes[..k]);
      assert changes == changes[..k] + [changes[k]];
      assert (set l | l in changes :: derive(l.name))
        == (set l | l in changes[..k] :: derive(l.name)) + {derive(changes[k].name)};
    }
  }

  lemma {:induction false} GainedSize(n: nat, count: U64)
    requires n <= count
    ensures |set i: U64 | n <= i < count :: Some(AtIndex(i))| == count - n
    decreases count
  {
    if n < count {
      GainedSize(n, count - 1);
      assert (set i: U64 | n <= i < count :: Some(AtIndex(i)))
        == (set i: U64 | n <= i < count - 1 :: Some(AtIndex(i))) + {Some(AtIndex(count - 1))};
    } else {
      assert (set i: U64 | n <= i < count :: Some(AtIndex(i))) == {};
    }
  }

  // A List of the wrong size misses an index it gained.
  lemma NotDense(derive: Deriver, c: map<Path, Item>, delta: Delta)
    requires Whole(derive, ListLayout, c)
    requires AllSuit(derive, ListLayout, c, CountAfter(ListLayout, c, delta), delta.changes)
    requires !DeltaOk(derive, ListLayout, c, delta)
    ensures exists i: U64 :: (
      |c| <= i < (if delta.count.Some? then delta.count.value else |c|) && !NamesIndex(derive, delta.changes, i))
  {
    hide Keyed, AllSuit, After, IndexKeys, NamesIndex;
    DenseIs(derive, c, delta);
  }

  // A List delta leaves the right number of positions only if it is dense.
  lemma EarlyRefusal(derive: Deriver, c: map<Path, Item>, delta: Delta)
    requires Keyed(derive, ListLayout, c) && |c| < TWO64 && c.Keys == IndexKeys(|c|)
    ensures var a, count := After(derive, ListLayout, c, delta), CountAfter(ListLayout, c, delta);
      && (DeltaOk(derive, ListLayout, c, delta) ==> count <= |c| + |delta.changes|)
      && (AllSuit(derive, ListLayout, c, count, delta.changes) ==>
          Keyed(derive, ListLayout, a) && (DeltaOk(derive, ListLayout, c, delta) <==> |a| == count))
  {
    hide Keyed, AllSuit, After, IndexKeys;
    if AllSuit(derive, ListLayout, c, CountAfter(ListLayout, c, delta), delta.changes) {
      DenseBySize(derive, c, delta);
    }
  }

  lemma MapKeyed(derive: Deriver, c: map<Path, Item>, count: nat, changes: seq<LabelChange>)
    requires Keyed(derive, MapLayout, c) && AllSuit(derive, MapLayout, c, count, changes)
    ensures Keyed(derive, MapLayout, Writes(c, Placed(derive, changes)))
  {
    hide Keyed, AllSuit, Suits, LabelCoordinate;
    forall ch | ch in Placed(derive, changes)
      ensures LabelCoordinate(derive, MapLayout, ch.name) == Ok(ch.at)
    {
      PlacedSuits(derive, MapLayout, c, count, changes, ch);
    }
    WritesKeyed(derive, MapLayout, c, Placed(derive, changes));
  }

  method Count(bindings: Index) returns (n: nat)
    requires Sound(bindings)
    ensures n == |Contents(bindings)|
  {
    if bindings.None? {
      return 0;
    }
    FieldsExact(bindings.value);
    return bindings.value.Size();
  }

  // Applies a delta. It succeeds exactly when the delta fits the retained
  // relations; the new writer then agrees with a fresh construction of them.
  method Apply(b: Radix, derive: Deriver, w: Writer, delta: Delta) returns (r: Result<Writer, Error>)
    requires Agrees(b, derive, w)
    ensures r.Ok? <==> DeltaOk(derive, w.layout, Contents(w.bindings), delta)
    ensures r.Ok? <==> DeltaFits(derive, w.layout, Contents(w.bindings), delta)
    ensures r.Err? ==> DeltaRefused(derive, w.layout, Contents(w.bindings), delta, r.error)
    ensures r.Ok? ==> Steps(b, derive, w, delta, r.value)
    ensures r.Ok? ==> Leaves(derive, w.layout, Contents(w.bindings), delta, Contents(r.value.bindings))
    ensures r.Ok? ==> r.value.payload == if delta.payload.Some? then delta.payload.value else w.payload
  {
    hide Keyed, BindingKey, Bindings.Sound, Bindings.Contents, AllSuit, Writes, Replacements, Placed, IndexKeys,
      MapRoot,
      ListRoot, MapOf, ItemsOf, Retained.Faithful, DeltaOk, Workspace.Valid, DeltaFits, DeltaRefused, Leaves;
    ghost var c := Contents(w.bindings);
    RootLayout(b, derive, w);
    WholeWriter(b, derive, w, delta);
    var plan := PlanDelta(derive, w.layout, w.bindings, delta);
    if plan.Err? {
      return Err(plan.error);
    }
    var (bindings, replacements) := plan.value;
    var payload := if w.layout == ListLayout && delta.payload.Some? then delta.payload.value else w.payload;
    var nodes := new Workspace(b, Some(w.nodes));
    var root: Ref;
    PlanFacts(derive, w.layout, c, delta);
    if w.layout == MapLayout {
      var edited := EditMapTree(nodes, derive, w.root, replacements, c, |c|, delta.changes);
      root := edited.value;
    } else {
      var oldCount := Count(w.bindings);
      var count := if delta.count.Some? then delta.count.value else oldCount;
      var edited := EditListTree(nodes, derive, w.root, replacements, count, oldCount, bindings, w.payload, payload,
                                 c, delta);
      root := edited.value;
    }
    var sealed := nodes.Seal(root);
    var previous := if root == w.root then w.previous else Some(w.root);
    return Ok(Writer(w.layout, root, previous, payload, bindings, sealed.value));
  }

  lemma RootLayout(b: Radix, derive: Deriver, w: Writer)
    requires Agrees(b, derive, w)
    ensures w.root.layout == w.layout
  {
  }

  lemma WholeWriter(b: Radix, derive: Deriver, w: Writer, delta: Delta)
    requires Agrees(b, derive, w)
    ensures var c := Contents(w.bindings);
      && (DeltaOk(derive, w.layout, c, delta) <==> DeltaFits(derive, w.layout, c, delta))
      && (DeltaOk(derive, w.layout, c, delta) ==>
            Leaves(derive, w.layout, c, delta, After(derive, w.layout, c, delta)))
  {
    hide Keyed, DeltaOk, DeltaFits, Leaves, After, IndexKeys, Bindings.Sound, Bindings.Contents, Retained.Faithful,
      MapRoot, ListRoot, MapOf, ItemsOf;
    var c := Contents(w.bindings);
    DeltaOkIs(derive, w.layout, c, delta);
    if DeltaOk(derive, w.layout, c, delta) {
      AfterLeaves(derive, w.layout, c, delta);
    }
  }

  lemma PlanFacts(derive: Deriver, layout: Layout, c: map<Path, Item>, delta: Delta)
    requires DeltaOk(derive, layout, c, delta)
    ensures AllSuit(derive, layout, c, CountAfter(layout, c, delta), delta.changes)
    ensures layout == MapLayout ==> delta.payload == None && CountAfter(layout, c, delta) == |c|
    ensures layout == MapLayout ==> After(derive, layout, c, delta) == Writes(c, Placed(derive, delta.changes))
    ensures layout == ListLayout ==> After(derive, layout, c, delta).Keys == IndexKeys(CountAfter(layout, c, delta))
  {
  }
}
