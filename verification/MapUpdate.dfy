// Insert, replace and delete in the Map layout, with splitting and collapse.
module MapUpdate {
  import opened Words
  import opened Geometry
  import opened Nodes
  import opened Coordinates
  import opened MapTree
  import opened MapBuild
  import opened Vectors
  import opened Workspaces
  import opened Grouping
  import opened Sorting

  // One checked change; its label derives to its key.
  datatype KeyChange = KeyChange(key: Key, name: Label, before: Option<Target>, after: Option<Target>)

  function ChangeKey(): KeyChange -> Key {
    (c: KeyChange) => c.key
  }

  function Look(m: map<Key, Entry>, k: Key): Option<Entry> {
    if k in m then Some(m[k]) else None
  }

  // Why a change is refused against the current binding of its key, if it is.
  function Verdict(cur: Option<Entry>, c: KeyChange): Option<Error> {
    if cur.Some? && cur.value.name != c.name then Some(Collision)
    else if (if cur.Some? then Some(cur.value.target) else None) != c.before then Some(Mismatch)
    else None
  }

  ghost predicate Accepted(m: map<Key, Entry>, changes: seq<KeyChange>) {
    forall c :: c in changes ==> Verdict(Look(m, c.key), c) == None
  }

  // The reason given is the reason of one of the refused changes.
  ghost predicate RefusedFor(m: map<Key, Entry>, changes: seq<KeyChange>, e: Error) {
    exists c :: c in changes && Verdict(Look(m, c.key), c) == Some(e)
  }

  // The binding of a key once the changes are made.
  function EntryAfter(changes: seq<KeyChange>, k: Key, cur: Option<Entry>): Option<Entry> {
    if changes == [] then cur else
      var last := changes[|changes| - 1];
      if last.key != k then EntryAfter(changes[..|changes| - 1], k, cur) else Written(last)
  }

  // What a change leaves at its key.
  function Written(c: KeyChange): Option<Entry> {
    if c.after.Some? then Some(Entry(c.name, c.after.value)) else None
  }

  function Patch(m: map<Key, Entry>, changes: seq<KeyChange>): (r: map<Key, Entry>)
    ensures forall k :: Look(r, k) == EntryAfter(changes, k, Look(m, k))
  {
    if changes == [] then m else
      var last := changes[|changes| - 1];
      var front := Patch(m, changes[..|changes| - 1]);
      if last.after.Some? then front[last.key := Entry(last.name, last.after.value)]
      else map k | k in front && k != last.key :: front[k]
  }

  // Patching updates exactly the named keys.
  lemma {:induction false} EntryAfterIs(changes: seq<KeyChange>, k: Key, cur: Option<Entry>)
    requires Distinct(changes, ChangeKey())
    ensures forall c :: c in changes && c.key == k ==> EntryAfter(changes, k, cur) == Written(c)
    ensures (forall c :: c in changes ==> c.key != k) ==> EntryAfter(changes, k, cur) == cur
  {
    if changes != [] {
      var n := |changes| - 1;
      EntryAfterIs(changes[..n], k, cur);
      assert changes == changes[..n] + [changes[n]];
      forall c | c in changes && c.key == k
        ensures EntryAfter(changes, k, cur) == Written(c)
      {
        var i :| 0 <= i <= n && changes[i] == c;
        if i < n {
          assert changes[..n][i] == c;
          assert ChangeKey()(changes[i]) != ChangeKey()(changes[n]);
        }
      }
    }
  }

  // ---- The same in the caller's terms ----

  // What a change expects of the current bindings: no binding of its key, or its own
  // label bound to the old target.
  ghost predicate Expected(m: map<Key, Entry>, c: KeyChange) {
    match c.before
    case None => c.key !in m
    case Some(t) => c.key in m && m[c.key] == Entry(c.name, t)
  }

  ghost predicate AllExpected(m: map<Key, Entry>, changes: seq<KeyChange>) {
    forall c :: c in changes ==> Expected(m, c)
  }

  // A change whose expectation fails: another label is bound at its key, or the old
  // target differs.
  ghost predicate Unexpected(m: map<Key, Entry>, changes: seq<KeyChange>, e: Error) {
    exists c :: c in changes && !Expected(m, c) &&
                e == if c.key in m && m[c.key].name != c.name then Collision else Mismatch
  }

  // Acceptance is exactly that every expectation holds, and a refusal names what
  // fails.
  lemma AcceptedIs(m: map<Key, Entry>, changes: seq<KeyChange>)
    ensures Accepted(m, changes) <==> AllExpected(m, changes)
    ensures forall e :: RefusedFor(m, changes, e) <==> Unexpected(m, changes, e)
  {
    hide Verdict, Expected;
    forall c: KeyChange
      ensures Verdict(Look(m, c.key), c) == if Expected(m, c) then None
        else if c.key in m && m[c.key].name != c.name then Some(Collision) else Some(Mismatch)
    {
      VerdictIs(m, c);
    }
  }

  lemma VerdictIs(m: map<Key, Entry>, c: KeyChange)
    ensures Verdict(Look(m, c.key), c) == if Expected(m, c) then None
      else if c.key in m && m[c.key].name != c.name then Some(Collision) else Some(Mismatch)
  {
  }

  // Every changed key is bound to its label and new target, or to nothing; every
  // other key as before.
  ghost predicate Updated(m: map<Key, Entry>, changes: seq<KeyChange>, after: map<Key, Entry>) {
    && (forall c :: c in changes ==> match c.after
          case None => c.key !in after
          case Some(t) => c.key in after && after[c.key] == Entry(c.name, t))
    && forall k :: (forall c :: c in changes ==> c.key != k) ==> (
        (k in after <==> k in m) && (k in m ==> after[k] == m[k]))
  }

  lemma PatchIs(m: map<Key, Entry>, changes: seq<KeyChange>)
    requires Distinct(changes, ChangeKey())
    ensures Updated(m, changes, Patch(m, changes))
  {
    hide Patch, EntryAfter, Distinct;
    var after := Patch(m, changes);
    forall c | c in changes
      ensures Look(after, c.key) == if c.after.Some? then Some(Entry(c.name, c.after.value)) else None
    {
      EntryAfterIs(changes, c.key, Look(m, c.key));
    }
    forall k | forall c :: c in changes ==> c.key != k
      ensures (k in after <==> k in m) && (k in m ==> after[k] == m[k])
    {
      EntryAfterIs(changes, k, Look(m, k));
      assert Look(after, k) == Look(m, k);
    }
  }

  lemma SameMap(x: map<Key, Entry>, y: map<Key, Entry>)
    requires forall k :: Look(x, k) == Look(y, k)
    ensures x == y
  {
    forall k
      ensures k in x <==> k in y
      ensures k in x ==> x[k] == y[k]
    {
      assert Look(x, k) == Look(y, k);
    }
  }

  function ChangeRouter(b: Radix, depth: nat): KeyChange -> nat {
    (c: KeyChange) => Digit(b, c.key, depth)
  }

  lemma {:induction false} EntryAfterGroup(changes: seq<KeyChange>, f: KeyChange -> nat, slot: nat, k: Key,
                                           cur: Option<Entry>)
    requires forall c :: c in changes && c.key == k ==> f(c) == slot
    ensures EntryAfter(Select(changes, f, slot), k, cur) == EntryAfter(changes, k, cur)
  {
    if changes != [] {
      var n := |changes| - 1;
      assert changes == changes[..n] + [changes[n]];
      EntryAfterGroup(changes[..n], f, slot, k, cur);
      var front := Select(changes[..n], f, slot);
      if f(changes[n]) == slot {
        assert (front + [changes[n]])[..|front|] == front;
      }
    }
  }

  lemma {:induction false} EntryAfterElsewhere(changes: seq<KeyChange>, k: Key, cur: Option<Entry>)
    requires forall c :: c in changes ==> c.key != k
    ensures EntryAfter(changes, k, cur) == cur
  {
    if changes != [] {
      var n := |changes| - 1;
      assert changes == changes[..n] + [changes[n]];
      EntryAfterElsewhere(changes[..n], k, cur);
    }
  }

  // Patching commutes with descending into a slot.
  lemma PatchGroup(b: Radix, m: map<Key, Entry>, changes: seq<KeyChange>, depth: nat, slot: nat)
    ensures GroupOf(b, Patch(m, changes), depth, slot)
      == Patch(GroupOf(b, m, depth, slot), Select(changes, ChangeRouter(b, depth), slot))
  {
    hide Digit, EntryAfter;
    var f := ChangeRouter(b, depth);
    var x := GroupOf(b, Patch(m, changes), depth, slot);
    var y := Patch(GroupOf(b, m, depth, slot), Select(changes, f, slot));
    forall k
      ensures Look(x, k) == Look(y, k)
    {
      assert Look(Patch(m, changes), k) == EntryAfter(changes, k, Look(m, k));
      if Digit(b, k, depth) == slot {
        EntryAfterGroup(changes, f, slot, k, Look(m, k));
      } else {
        EntryAfterElsewhere(Select(changes, f, slot), k, None);
      }
    }
    SameMap(x, y);
  }

  lemma AcceptedGroup(b: Radix, m: map<Key, Entry>, changes: seq<KeyChange>, depth: nat, slot: nat)
    ensures var g, group := GroupOf(b, m, depth, slot), Select(changes, ChangeRouter(b, depth), slot);
      forall c :: c in group ==> Verdict(Look(g, c.key), c) == Verdict(Look(m, c.key), c)
  {
  }

  lemma PatchPrefixed(b: Radix, m: map<Key, Entry>, changes: seq<KeyChange>, path: seq<nat>)
    requires Prefixed(b, m.Keys, path) && forall c :: c in changes ==> OnPath(b, c.key, path)
    ensures Prefixed(b, Patch(m, changes).Keys, path)
  {
    hide OnPath;
    forall k | k in Patch(m, changes)
      ensures OnPath(b, k, path)
    {
      assert Look(Patch(m, changes), k) == EntryAfter(changes, k, Look(m, k));
      if forall c :: c in changes ==> c.key != k {
        EntryAfterElsewhere(changes, k, Look(m, k));
      }
    }
  }

  // ---- The edit ----

  ghost predicate Derived(derive: Deriver, m: map<Key, Entry>) {
    forall k :: k in m ==> derive(m[k].name) == Some(AtKey(k))
  }

  ghost predicate MapCommittable(cell: Cell, avail: set<Ref>) {
    match cell
    case Child(ref) => ref.layout == MapLayout && ref in avail
    case Malformed(tag, _) => tag != CHILD_NODE
    case _ => true
  }

  // The canonical node of `m` below a path.
  ghost predicate IsMapNode(b: Radix, derive: Deriver, ref: Ref, m: map<Key, Entry>, path: seq<nat>) {
    && ref == MapNode(b, m, |path|)
    && Prefixed(b, m.Keys, path) && Derived(derive, m)
    && DepthOk(b, |path|)
  }

  // The canonical Map root of a set of bindings at their derived keys.
  ghost predicate CanonicalMap(b: Radix, derive: Deriver, root: Ref, m: map<Key, Entry>) {
    root == MapRoot(b, m) && Derived(derive, m)
  }

  // A leaf must lie on the path its own key takes.
  method CheckLeafRoute(b: Radix, leaf: Key, query: Key, depth: nat) returns (ok: bool)
    ensures ok <==> DepthOk(b, depth) && forall d :: 0 <= d <= depth ==> Digit(b, leaf, d) == Digit(b, query, d)
  {
    for d := 0 to depth + 1
      invariant forall e :: 0 <= e < d ==> Digit(b, leaf, e) == Digit(b, query, e)
      invariant d > 0 ==> DepthOk(b, d - 1)
    {
      var x := ComputeDigit(b, leaf, d);
      if x.Err? {
        TimesMono(d, depth, b);
        return false;
      }
      var y := ComputeDigit(b, query, d);
      if x != y {
        return false;
      }
    }
    return true;
  }

  // Checks and applies the changes of a slot that holds no subtree.
  method ApplyEntries(entries: map<Key, Entry>, changes: seq<KeyChange>) returns (r: Result<map<Key, Entry>, Error>)
    requires Distinct(changes, ChangeKey())
    ensures if Accepted(entries, changes) then r == Ok(Patch(entries, changes))
      else r.Err? && RefusedFor(entries, changes, r.error)
    ensures if AllExpected(entries, changes) then r.Ok? && Updated(entries, changes, r.value)
      else r.Err? && Unexpected(entries, changes, r.error)
    ensures r.Err? ==> r.error != Incomplete
  {
    hide Patch, AllExpected, Unexpected, Updated;
    AcceptedIs(entries, changes);
    PatchIs(entries, changes);
    var cur := entries;
    PatchNone(entries);
    for i := 0 to |changes|
      invariant Accepted(entries, changes[..i]) && cur == Patch(entries, changes[..i])
    {
      var c := changes[i];
      Untouched(entries, changes, i);
      var actual := Look(cur, c.key);
      if actual.Some? && actual.value.name != c.name {
        return Err(Collision);
      }
      if (if actual.Some? then Some(actual.value.target) else None) != c.before {
        return Err(Mismatch);
      }
      PatchNext(entries, changes, i);
      if c.after.Some? {
        cur := cur[c.key := Entry(c.name, c.after.value)];
      } else {
        cur := map k | k in cur && k != c.key :: cur[k];
      }
    }
    assert changes[..|changes|] == changes;
    return Ok(cur);
  }

  lemma PatchNone(m: map<Key, Entry>)
    ensures Patch(m, []) == m
  {
  }

  lemma PatchNext(m: map<Key, Entry>, changes: seq<KeyChange>, i: nat)
    requires i < |changes|
    ensures var c, front := changes[i], Patch(m, changes[..i]);
      Patch(m, changes[..i + 1]) == if c.after.Some? then front[c.key := Entry(c.name, c.after.value)]
        else map k | k in front && k != c.key :: front[k]
    ensures changes[..i + 1] == changes[..i] + [changes[i]]
  {
    assert changes[..i + 1][..i] == changes[..i];
  }

  lemma Untouched(m: map<Key, Entry>, changes: seq<KeyChange>, i: nat)
    requires Distinct(changes, ChangeKey()) && i < |changes|
    ensures Look(Patch(m, changes[..i]), changes[i].key) == Look(m, changes[i].key)
  {
    forall c | c in changes[..i]
      ensures c.key != changes[i].key
    {
      var j :| 0 <= j < i && changes[j] == c;
      assert ChangeKey()(changes[j]) != ChangeKey()(changes[i]);
    }
    EntryAfterElsewhere(changes[..i], changes[i].key, Look(m, changes[i].key));
  }

  // The entries of a map as a sorted batch.
  method SortedEntries(entries: map<Key, Entry>) returns (items: seq<Binding>)
    ensures Distinct(items, KeyOf()) && ToMap(items) == entries && Sorted(items, KeyLess())
  {
    var keys := entries.Keys;
    var unsorted: seq<Binding> := [];
    while keys != {}
      invariant keys <= entries.Keys && Distinct(unsorted, KeyOf())
      invariant forall item :: item in unsorted ==> item.key !in keys
      invariant forall k :: k in entries && k !in keys ==> Binding(k, entries[k].name, entries[k].target) in unsorted
      invariant forall item :: item in unsorted ==> item.key in entries && item.Entry() == entries[item.key]
      decreases keys
    {
      var k :| k in keys;
      unsorted := unsorted + [Binding(k, entries[k].name, entries[k].target)];
      keys := keys - {k};
    }
    items := Sort(unsorted, KeyLess());
    KeyOrder();
    SortSorts(unsorted, KeyLess());
    SameBatch(unsorted, items, entries);
  }

  lemma SameBatch(x: seq<Binding>, y: seq<Binding>, m: map<Key, Entry>)
    requires multiset(x) == multiset(y) && Distinct(x, KeyOf())
    requires forall k :: k in m ==> Binding(k, m[k].name, m[k].target) in x
    requires forall item :: item in x ==> item.key in m && item.Entry() == m[item.key]
    ensures Distinct(y, KeyOf()) && ToMap(y) == m
  {
    PermutedDistinct(x, y, KeyOf());
    forall item
      ensures item in x <==> item in y
    {
      assert item in multiset(x) <==> item in multiset(y);
    }
    forall k
      ensures k in ToMap(y) <==> k in m
      ensures k in m ==> k in ToMap(y) && ToMap(y)[k] == m[k]
    {
      if k in m {
        ToMapGets(y, Binding(k, m[k].name, m[k].target));
      }
      if k in ToMap(y) {
        ToMapBound(y, k);
      }
    }
  }

  // Edits one node and returns its new vector, not yet committed: the parent may
  // collapse it. On a canonical node this succeeds exactly when every change is
  // accepted, and then gives the canonical vector of the patched bindings.
  method EditNode(u: NodeEdit, derive: Deriver, ref: Ref, depth: nat, changes: seq<KeyChange>,
                  ghost path: seq<nat>, ghost m: map<Key, Entry>)
    returns (r: Result<seq<Cell>, Error>)
    requires u.Valid() && ref in u.nodes.known && ref.layout == MapLayout
    requires changes != [] && Distinct(changes, ChangeKey()) && |path| == depth
    requires forall c :: c in changes ==> OnPath(u.b, c.key, path)
    modifies u, u.nodes, u.builder
    ensures u.Valid() && u.nodes.written == old(u.nodes.written)
    ensures u.nodes.known.Keys >= old(u.nodes.known.Keys) && u.Avail() >= old(u.Avail())
    ensures r.Ok? ==> |r.value| == Slots(u.b)
    ensures r.Ok? ==> forall k :: 0 <= k < |r.value| ==> MapCommittable(r.value[k], u.Avail())
    ensures IsMapNode(u.b, derive, ref, m, path) ==>
      if Accepted(m, changes) then r == Ok(MapNode(u.b, Patch(m, changes), depth).cells)
      else r.Err? && RefusedFor(m, changes, r.error)
    ensures r.Err? ==> r.error != Incomplete
    decreases ref, 2
  {
    hide MapNode, MapCell, OnPath, NodeEdit.Valid, WellTagged, Distinct, Accepted, RefusedFor, Patch, Select,
      ChangeRouter, Prefixed, Derived, AllCommittable, Midway, AcceptedBelow;
    var b := u.b;
    ghost var canonical := IsMapNode(b, derive, ref, m, path);
    ghost var want := MapNode(b, Patch(m, changes), depth).cells;
    MapMeta(b, Patch(m, changes), depth);
    var got := u.GetNode(ref);
    if !DepthOk(b, depth) {
      return Err(BadNode);
    }
    var cells := got.value;
    var groups := GroupBy(changes, ChangeRouter(b, depth));
    KeptCells(ref, u.Avail());
    MidwayStart(cells, want, 0);
    AcceptedNone(b, m, changes, depth);
    for slot := 0 to |cells|
      invariant u.Valid() && u.nodes.written == old(u.nodes.written)
      invariant u.nodes.known.Keys >= old(u.nodes.known.Keys) && u.Avail() >= old(u.Avail())
      invariant Children(ref) <= u.nodes.known.Keys
      invariant |cells| == Slots(b) && AllCommittable(cells, u.Avail())
      invariant canonical ==> Midway(cells, ref.cells, want, slot)
      invariant canonical ==> AcceptedBelow(b, m, changes, depth, slot)
    {
      var group := Group(groups, slot);
      if group == [] {
        KeepGroup(b, m, changes, path, slot);
        MidwayKeep(cells, ref.cells, want, slot);
        AcceptedNext(b, m, changes, depth, slot);
        continue;
      }
      ghost var small := u.Avail();
      var cell := EditSlot(u, derive, ref, slot, depth, group, path, changes, m);
      AcceptedNext(b, m, changes, depth, slot);
      if cell.Err? {
        if canonical {
          RefusedGroup(b, m, changes, depth, slot, cell.error);
        }
        return Err(cell.error);
      }
      SetCell(cells, slot, cell.value, small, u.Avail());
      MidwaySet(cells, ref.cells, want, slot, cell.value);
      cells := cells[slot := cell.value];
    }
    AcceptedAll(b, m, changes, depth);
    AllCells(cells, u.Avail());
    MidwayDone(cells, ref.cells, want);
    return Ok(cells);
  }

  // The new cell of a slot that changes are routed to.
  method EditSlot(u: NodeEdit, derive: Deriver, ref: Ref, slot: nat, depth: nat, group: seq<KeyChange>,
                  ghost path: seq<nat>, ghost changes: seq<KeyChange>, ghost m: map<Key, Entry>)
    returns (r: Result<Cell, Error>)
    requires u.Valid() && ref in u.nodes.known && ref.layout == MapLayout
    requires WellTagged(ref) && Children(ref) <= u.nodes.known.Keys && |ref.cells| == Slots(u.b)
    requires slot < Slots(u.b) && |path| == depth && DepthOk(u.b, depth)
    requires Distinct(changes, ChangeKey())
    requires forall c :: c in changes ==> OnPath(u.b, c.key, path)
    requires group == Select(changes, ChangeRouter(u.b, depth), slot) != []
    modifies u, u.nodes, u.builder
    ensures u.Valid() && u.nodes.written == old(u.nodes.written)
    ensures u.nodes.known.Keys >= old(u.nodes.known.Keys) && u.Avail() >= old(u.Avail())
    ensures r.Ok? ==> MapCommittable(r.value, u.Avail())
    ensures IsMapNode(u.b, derive, ref, m, path) ==>
      var g := GroupOf(u.b, m, depth, slot);
      if Accepted(g, group) then r == Ok(MapNode(u.b, Patch(m, changes), depth).cells[slot])
      else r.Err? && RefusedFor(g, group, r.error)
    ensures r.Err? ==> r.error != Incomplete
    decreases ref, 1
  {
    hide MapNode, MapCell, OnPath, NodeEdit.Valid, WellTagged, Distinct, Accepted, RefusedFor, Patch, Select,
      ChangeRouter, IsMapNode, Children;
    var old_ := ref.cells[slot];
    if old_ != Blank && Tag(old_) == CHILD_NODE {
      r := EditSubtree(u, derive, ref, slot, depth, group, path, changes, m);
    } else {
      r := EditLeaf(u, derive, ref, slot, depth, group, path, changes, m);
    }
  }

  // The cell for a subtree's new vector: nothing, a lone leaf, or the subtree.
  function Collapsed(count: nat, only: Cell, node: Ref): Cell {
    if count == 0 then Blank
    else if count == 1 && only != Blank && Tag(only) == MAP_LEAF then only
    else Child(node)
  }

  method CountOccupied(cells: seq<Cell>) returns (count: nat, only: Cell)
    ensures count == Occupied(cells)
    ensures count > 0 ==> only in cells && only != Blank
  {
    count, only := 0, Blank;
    for i := 0 to |cells|
      invariant count == Occupied(cells[..i])
      invariant count > 0 ==> only in cells && only != Blank
    {
      assert cells[..i + 1][..i] == cells[..i];
      if cells[i] != Blank {
        only := cells[i];
        count := count + 1;
      }
    }
    assert cells[..|cells|] == cells;
  }

  // Collapsing a group's vector gives the canonical cell of its slot.
  lemma CollapsedIs(b: Radix, m: map<Key, Entry>, path: seq<nat>, slot: nat, only: Cell)
    requires Prefixed(b, m.Keys, path)
    requires var cells := MapNode(b, GroupOf(b, m, |path|, slot), |path| + 1).cells;
      Occupied(cells) > 0 ==> only in cells && only != Blank
    ensures var node := MapNode(b, GroupOf(b, m, |path|, slot), |path| + 1);
      MapCell(b, m, |path|, slot) == Collapsed(Occupied(node.cells), only, node)
  {
    hide MapNode, MapCell, Digit, OnPath, Occupied, Prefixed;
    var g := GroupOf(b, m, |path|, slot);
    PrefixedGroup(b, m, path, slot);
    MapCellIs(b, m, path, slot);
    if g == map[] {
      CollapseEmpty(b, |path| + 1);
    } else {
      var k :| k in g;
      if g.Keys == {k} {
        OnlyLeaf(b, g, path + [slot], k, only);
      } else {
        var j :| j in g && j != k;
        NoLoneLeaf(b, g, path + [slot], j, k, only);
      }
    }
  }

  lemma OnlyLeaf(b: Radix, g: map<Key, Entry>, path: seq<nat>, k: Key, only: Cell)
    requires g.Keys == {k} && Prefixed(b, g.Keys, path)
    requires Occupied(MapNode(b, g, |path|).cells) > 0 ==> only in MapNode(b, g, |path|).cells && only != Blank
    ensures Occupied(MapNode(b, g, |path|).cells) == 1 && only == MapLeaf(g[k].name, g[k].target)
  {
    hide MapNode, MapCell, Occupied;
    var cells, d := MapNode(b, g, |path|).cells, Digit(b, k, |path|);
    MapMeta(b, g, |path|);
    CollapseOne(b, g, path, k);
    OccupiedOne(cells, d);
  }

  lemma NoLoneLeaf(b: Radix, g: map<Key, Entry>, path: seq<nat>, j: Key, k: Key, only: Cell)
    requires j in g && k in g && j != k && Prefixed(b, g.Keys, path)
    requires Occupied(MapNode(b, g, |path|).cells) > 0 ==> only in MapNode(b, g, |path|).cells && only != Blank
    ensures Occupied(MapNode(b, g, |path|).cells) != 0
    ensures Occupied(MapNode(b, g, |path|).cells) == 1 ==> Tag(only) != MAP_LEAF
  {
    hide MapNode, MapCell, Occupied;
    MapMeta(b, g, |path|);
    CollapseMany(b, g, path, j, k);
    MapShape(b, g, |path|);
  }

  method EditSubtree(u: NodeEdit, derive: Deriver, ref: Ref, slot: nat, depth: nat, group: seq<KeyChange>,
                     ghost path: seq<nat>, ghost changes: seq<KeyChange>, ghost m: map<Key, Entry>)
    returns (r: Result<Cell, Error>)
    requires u.Valid() && ref in u.nodes.known && ref.layout == MapLayout
    requires WellTagged(ref) && Children(ref) <= u.nodes.known.Keys && |ref.cells| == Slots(u.b)
    requires slot < Slots(u.b) && |path| == depth && DepthOk(u.b, depth)
    requires ref.cells[slot] != Blank && Tag(ref.cells[slot]) == CHILD_NODE
    requires Distinct(changes, ChangeKey())
    requires forall c :: c in changes ==> OnPath(u.b, c.key, path)
    requires group == Select(changes, ChangeRouter(u.b, depth), slot) != []
    modifies u, u.nodes, u.builder
    ensures u.Valid() && u.nodes.written == old(u.nodes.written)
    ensures u.nodes.known.Keys >= old(u.nodes.known.Keys) && u.Avail() >= old(u.Avail())
    ensures r.Ok? ==> MapCommittable(r.value, u.Avail())
    ensures IsMapNode(u.b, derive, ref, m, path) ==>
      var g := GroupOf(u.b, m, depth, slot);
      if Accepted(g, group) then r == Ok(MapNode(u.b, Patch(m, changes), depth).cells[slot])
      else r.Err? && RefusedFor(g, group, r.error)
    ensures r.Err? ==> r.error != Incomplete
    decreases ref, 0
  {
    hide MapNode, MapCell, OnPath, NodeEdit.Valid, WellTagged, Distinct, Accepted, RefusedFor, Patch, Select,
      ChangeRouter, IsMapNode, Occupied, Digit, Prefixed, GroupOf;
    var b := u.b;
    ghost var canonical := IsMapNode(b, derive, ref, m, path);
    ghost var g := GroupOf(b, m, depth, slot);
    var child := ParseChild(ref.cells[slot], ref);
    if canonical {
      SubtreeIs(b, derive, ref, m, path, slot);
    }
    if child.Err? {
      return Err(child.error);
    }
    GroupPath(b, changes, path, slot);
    var next := EditNode(u, derive, child.value, depth + 1, group, path + [slot], g);
    if next.Err? {
      return Err(next.error);
    }
    var count, only := CountOccupied(next.value);
    if canonical {
      PatchGroup(b, m, changes, depth, slot);
      IsMapPrefixed(b, derive, ref, m, path);
      PatchPrefixed(b, m, changes, path);
      MapMeta(b, Patch(m, changes), depth);
      MapMeta(b, Patch(g, group), depth + 1);
      if Accepted(g, group) {
        CollapsedIs(b, Patch(m, changes), path, slot, only);
      }
    }
    if count == 0 {
      return Ok(Blank);
    }
    if count == 1 && Tag(only) == MAP_LEAF {
      return Ok(only);
    }
    MapCells(next.value, u.Avail());
    var node := u.Commit(MapLayout, next.value);
    return Ok(Child(node));
  }

  lemma MapCells(cells: seq<Cell>, avail: set<Ref>)
    requires forall k :: 0 <= k < |cells| ==> MapCommittable(cells[k], avail)
    ensures WellTagged(Ref(MapLayout, cells))
    ensures forall k :: 0 <= k < |cells| && cells[k].Child? ==> cells[k].ref in avail
  {
  }

  lemma GroupPath(b: Radix, changes: seq<KeyChange>, path: seq<nat>, slot: nat)
    requires Distinct(changes, ChangeKey())
    requires forall c :: c in changes ==> OnPath(b, c.key, path)
    ensures var group := Select(changes, ChangeRouter(b, |path|), slot);
      Distinct(group, ChangeKey()) && forall c :: c in group ==> OnPath(b, c.key, path + [slot])
  {
    SelectDistinct(changes, ChangeKey(), ChangeRouter(b, |path|), slot);
  }

  lemma IsMapPrefixed(b: Radix, derive: Deriver, ref: Ref, m: map<Key, Entry>, path: seq<nat>)
    requires IsMapNode(b, derive, ref, m, path)
    ensures Prefixed(b, m.Keys, path) && Derived(derive, m) && ref == MapNode(b, m, |path|)
  {
  }

  // A child cell of a canonical node is the canonical node of its group.
  lemma SubtreeIs(b: Radix, derive: Deriver, ref: Ref, m: map<Key, Entry>, path: seq<nat>, slot: nat)
    requires IsMapNode(b, derive, ref, m, path) && slot < Slots(b)
    requires |ref.cells| == Slots(b) && ref.cells[slot] != Blank && Tag(ref.cells[slot]) == CHILD_NODE
    ensures ref.cells[slot].Child? && ref.cells[slot].ref.layout == MapLayout
    ensures IsMapNode(b, derive, ref.cells[slot].ref, GroupOf(b, m, |path|, slot), path + [slot])
  {
    hide MapNode, MapCell, OnPath, Digit;
    var g := GroupOf(b, m, |path|, slot);
    MapMeta(b, m, |path|);
    MapCellIs(b, m, path, slot);
    MapShape(b, m, |path|);
    PrefixedGroup(b, m, path, slot);
    assert g != map[];
    var k :| k in g;
    if g.Keys != {k} {
      var j :| j in g && j != k;
      MapMeta(b, g, |path| + 1);
    }
  }

  method EditLeaf(u: NodeEdit, derive: Deriver, ref: Ref, slot: nat, depth: nat, group: seq<KeyChange>,
                  ghost path: seq<nat>, ghost changes: seq<KeyChange>, ghost m: map<Key, Entry>)
    returns (r: Result<Cell, Error>)
    requires u.Valid() && ref in u.nodes.known && ref.layout == MapLayout
    requires |ref.cells| == Slots(u.b)
    requires slot < Slots(u.b) && |path| == depth && DepthOk(u.b, depth)
    requires ref.cells[slot] != Blank ==> Tag(ref.cells[slot]) != CHILD_NODE
    requires Distinct(changes, ChangeKey())
    requires forall c :: c in changes ==> OnPath(u.b, c.key, path)
    requires group == Select(changes, ChangeRouter(u.b, depth), slot) != []
    modifies u, u.nodes, u.builder
    ensures u.Valid() && u.nodes.written == old(u.nodes.written)
    ensures u.nodes.known.Keys >= old(u.nodes.known.Keys) && u.Avail() >= old(u.Avail())
    ensures r.Ok? ==> MapCommittable(r.value, u.Avail())
    ensures IsMapNode(u.b, derive, ref, m, path) ==>
      var g := GroupOf(u.b, m, depth, slot);
      if Accepted(g, group) then r == Ok(MapNode(u.b, Patch(m, changes), depth).cells[slot])
      else r.Err? && RefusedFor(g, group, r.error)
    ensures r.Err? ==> r.error != Incomplete
  {
    hide MapNode, MapCell, OnPath, NodeEdit.Valid, Distinct, Accepted, RefusedFor, Patch, Select,
      ChangeRouter, IsMapNode, Digit, Prefixed, GroupOf, ToMap;
    var b := u.b;
    ghost var canonical := IsMapNode(b, derive, ref, m, path);
    ghost var g := GroupOf(b, m, depth, slot);
    GroupPath(b, changes, path, slot);
    var entries := LeafEntries(b, derive, ref.cells[slot], depth, group[0].key, path + [slot]);
    if canonical {
      LeafIs(b, derive, ref, m, path, slot, group[0].key);
    }
    if entries.Err? {
      return Err(entries.error);
    }
    var after := ApplyEntries(entries.value, group);
    if after.Err? {
      return Err(after.error);
    }
    PatchPrefixed(b, entries.value, group, path + [slot]);
    if canonical {
      PatchGroup(b, m, changes, depth, slot);
      MapMeta(b, Patch(m, changes), depth);
      SameCell(b, Patch(m, changes), after.value, path, slot);
    }
    var cell := RebuildSlot(u, after.value, path, depth, slot);
    return Ok(cell);
  }

  // A cell depends only on the bindings of its own slot.
  lemma SameCell(b: Radix, m: map<Key, Entry>, g: map<Key, Entry>, path: seq<nat>, slot: nat)
    requires Prefixed(b, g.Keys, path + [slot]) && GroupOf(b, m, |path|, slot) == g
    ensures MapCell(b, m, |path|, slot) == MapCell(b, g, |path|, slot)
  {
    OwnGroup(b, g, path, slot);
  }

  lemma OwnGroup(b: Radix, g: map<Key, Entry>, path: seq<nat>, slot: nat)
    requires Prefixed(b, g.Keys, path + [slot])
    ensures GroupOf(b, g, |path|, slot) == g && Prefixed(b, g.Keys, path)
  {
    forall k | k in g
      ensures Digit(b, k, |path|) == slot && OnPath(b, k, path)
    {
      assert OnPath(b, k, path + [slot]);
      assert (path + [slot])[|path|] == slot;
      assert forall i :: 0 <= i < |path| ==> (path + [slot])[i] == path[i];
    }
  }

  // The cell for the remaining entries of a slot: nothing, one leaf, or a new subtree.
  method RebuildSlot(u: NodeEdit, entries: map<Key, Entry>, ghost path: seq<nat>, depth: nat, slot: nat)
    returns (cell: Cell)
    requires u.Valid() && |path| == depth && Prefixed(u.b, entries.Keys, path + [slot])
    modifies u.builder
    ensures u.Valid() && u.Avail() >= old(u.Avail())
    ensures MapCommittable(cell, u.Avail()) && cell == MapCell(u.b, entries, depth, slot)
  {
    hide MapNode, MapCell, OnPath, NodeEdit.Valid, Distinct, Digit, Prefixed, GroupOf, ToMap;
    var b := u.b;
    var items := SortedEntries(entries);
    ToMapSize(items);
    KeysOnPath(b, items, path + [slot]);
    OwnGroup(b, entries, path, slot);
    MapCellIs(b, entries, path, slot);
    if |items| == 0 {
      return Blank;
    }
    if |items| == 1 {
      return MapLeaf(items[0].name, items[0].target);
    }
    var child := EditMap(u, items, path + [slot], depth + 1);
    MapMeta(b, entries, depth + 1);
    return Child(child);
  }

  lemma KeysOnPath(b: Radix, items: seq<Binding>, path: seq<nat>)
    requires Distinct(items, KeyOf()) && Prefixed(b, ToMap(items).Keys, path)
    ensures forall item :: item in items ==> OnPath(b, item.key, path)
    ensures |items| > 1 ==> DepthOk(b, |path|)
  {
    if |items| > 1 && !DepthOk(b, |path|) {
      ToMapSize(items);
      PathSeparates(b, items[0].key, items[1].key, path);
    }
  }

  // The binding held by a leaf cell, if any. It must lie on its own route.
  method LeafEntries(b: Radix, derive: Deriver, cell: Cell, depth: nat, query: Key, ghost path: seq<nat>)
    returns (r: Result<map<Key, Entry>, Error>)
    requires |path| == depth + 1 && OnPath(b, query, path) && DepthOk(b, depth)
    ensures r.Ok? ==> Prefixed(b, r.value.Keys, path)
    ensures cell == Blank ==> r == Ok(map[])
    ensures forall k :: cell.MapLeaf? && derive(cell.name) == Some(AtKey(k)) && OnPath(b, k, path) ==>
      r == Ok(map[k := Entry(cell.name, cell.target)])
    ensures r.Err? ==> r.error != Incomplete
  {
    if cell == Blank {
      return Ok(map[]);
    }
    var leaf := ParseMap(cell);
    if leaf.Err? {
      return Err(leaf.error);
    }
    var (name, target) := leaf.value;
    var at := LabelCoordinate(derive, MapLayout, name);
    if at.Err? {
      return Err(at.error);
    }
    var key := at.value.key;
    var ok := CheckLeafRoute(b, key, query, depth);
    if !ok {
      return Err(BadNode);
    }
    return Ok(map[key := Entry(name, target)]);
  }

  // A cell of a canonical node that is no subtree holds its whole group.
  lemma LeafIs(b: Radix, derive: Deriver, ref: Ref, m: map<Key, Entry>, path: seq<nat>, slot: nat, query: Key)
    requires IsMapNode(b, derive, ref, m, path) && slot < Slots(b) && |ref.cells| == Slots(b)
    requires ref.cells[slot] != Blank ==> Tag(ref.cells[slot]) != CHILD_NODE
    ensures ref.cells[slot] == Blank || ref.cells[slot].MapLeaf?
    ensures ref.cells[slot] == Blank ==> GroupOf(b, m, |path|, slot) == map[]
    ensures ref.cells[slot] != Blank ==> exists k ::
      GroupOf(b, m, |path|, slot) == map[k := Entry(ref.cells[slot].name, ref.cells[slot].target)]
      && derive(ref.cells[slot].name) == Some(AtKey(k)) && OnPath(b, k, path + [slot])
  {
    hide MapNode, MapCell, OnPath, Digit;
    var g := GroupOf(b, m, |path|, slot);
    MapMeta(b, m, |path|);
    MapCellIs(b, m, path, slot);
    PrefixedGroup(b, m, path, slot);
    if g != map[] {
      var k :| k in g;
      if g.Keys == {k} {
        assert g == map[k := g[k]];
      }
    }
  }

  ghost predicate AllCommittable(cells: seq<Cell>, avail: set<Ref>) {
    forall k :: 0 <= k < |cells| ==> MapCommittable(cells[k], avail)
  }

  lemma KeptCells(r: Ref, avail: set<Ref>)
    requires WellTagged(r) && r.layout == MapLayout && Children(r) <= avail
    ensures AllCommittable(r.cells, avail)
  {
    forall k | 0 <= k < |r.cells|
      ensures MapCommittable(r.cells[k], avail)
    {
      assert r.cells[k] in r.cells;
    }
  }

  lemma SetCell(cells: seq<Cell>, k: nat, cell: Cell, small: set<Ref>, avail: set<Ref>)
    requires k < |cells| && MapCommittable(cell, avail)
    requires small <= avail && AllCommittable(cells, small)
    ensures AllCommittable(cells[k := cell], avail)
  {
  }

  lemma AllCells(cells: seq<Cell>, avail: set<Ref>)
    requires AllCommittable(cells, avail)
    ensures forall k :: 0 <= k < |cells| ==> MapCommittable(cells[k], avail)
  {
  }

  // A slot without changes keeps its cell.
  lemma KeepGroup(b: Radix, m: map<Key, Entry>, changes: seq<KeyChange>, path: seq<nat>, slot: nat)
    requires Select(changes, ChangeRouter(b, |path|), slot) == [] && slot < Slots(b)
    ensures MapNode(b, Patch(m, changes), |path|).cells[slot] == MapNode(b, m, |path|).cells[slot]
  {
    PatchGroup(b, m, changes, |path|, slot);
    PatchNone(GroupOf(b, m, |path|, slot));
  }

  // Every change routed below slot `n` is accepted.
  ghost predicate AcceptedBelow(b: Radix, m: map<Key, Entry>, changes: seq<KeyChange>, depth: nat, n: nat) {
    forall c :: c in changes && ChangeRouter(b, depth)(c) < n ==> Verdict(Look(m, c.key), c) == None
  }

  lemma AcceptedNone(b: Radix, m: map<Key, Entry>, changes: seq<KeyChange>, depth: nat)
    ensures AcceptedBelow(b, m, changes, depth, 0)
  {
  }

  lemma AcceptedNext(b: Radix, m: map<Key, Entry>, changes: seq<KeyChange>, depth: nat, n: nat)
    ensures var ok := Accepted(GroupOf(b, m, depth, n), Select(changes, ChangeRouter(b, depth), n));
      && (AcceptedBelow(b, m, changes, depth, n) && ok ==> AcceptedBelow(b, m, changes, depth, n + 1))
      && (!ok ==> !Accepted(m, changes))
    ensures Select(changes, ChangeRouter(b, depth), n) == [] ==>
      Accepted(GroupOf(b, m, depth, n), Select(changes, ChangeRouter(b, depth), n))
  {
    hide Digit, Verdict;
    AcceptedGroup(b, m, changes, depth, n);
  }

  lemma AcceptedAll(b: Radix, m: map<Key, Entry>, changes: seq<KeyChange>, depth: nat)
    ensures AcceptedBelow(b, m, changes, depth, Slots(b)) ==> Accepted(m, changes)
  {
  }

  lemma RefusedGroup(b: Radix, m: map<Key, Entry>, changes: seq<KeyChange>, depth: nat, n: nat, e: Error)
    requires RefusedFor(GroupOf(b, m, depth, n), Select(changes, ChangeRouter(b, depth), n), e)
    ensures RefusedFor(m, changes, e)
  {
    AcceptedGroup(b, m, changes, depth, n);
  }
}
