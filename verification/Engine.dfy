// The tree's entry points: complete construction and checked batch updates.
module Engine {
  import opened Words
  import opened Geometry
  import opened Nodes
  import opened Bits
  import opened Coordinates
  import opened ListTree
  import opened MapTree
  import opened MapBuild
  import opened MapUpdate
  import opened ListReplace
  import opened SequenceUpdate
  import opened Workspaces
  import opened Grouping
  import opened Sorting

  // ---- Checking an update batch ----

  function AtOf(): Change -> Coordinate {
    (c: Change) => c.at
  }

  // What makes one change unacceptable on its own.
  function ChangeFault(derive: Deriver, layout: Layout, c: Change): Option<Error> {
    var at := CheckSelector(derive, layout, Selector(c.at, c.name));
    if at.Err? then Some(at.error)
    else if Ineffective(layout, c) then Some(Undefined)
    else None
  }

  ghost predicate GoodBatch(derive: Deriver, layout: Layout, changes: seq<Change>) {
    && (forall c :: c in changes ==> ChangeFault(derive, layout, c) == None)
    && Distinct(changes, AtOf())
  }

  // The reported error names a real fault: of one change, or of two at one coordinate.
  ghost predicate BatchFault(derive: Deriver, layout: Layout, changes: seq<Change>, e: Error) {
    || (exists c :: c in changes && ChangeFault(derive, layout, c) == Some(e))
    || (exists i, j :: 0 <= i < j < |changes| && (
         Clash(changes[i].at, changes[i].name, changes[j].at, changes[j].name, e)))
  }

  // Two labels at one coordinate: the same label twice, or a collision.
  ghost predicate Clash(a: Coordinate, aName: Label, c: Coordinate, cName: Label, e: Error) {
    a == c && e == if aName == cName then Duplicate else Collision
  }

  method CheckBatch(derive: Deriver, layout: Layout, changes: seq<Change>) returns (r: Result<(), Error>)
    ensures if GoodBatch(derive, layout, changes) then r.Ok?
      else r.Err? && BatchFault(derive, layout, changes, r.error)
    ensures r.Err? ==> r.error != Incomplete
  {
    hide GoodBatch, BatchFault, ChangeFault, Clean, SeenNames;
    var seen: map<Coordinate, Label> := map[];
    NoneChecked(derive, layout, changes);
    for i := 0 to |changes|
      invariant Clean(derive, layout, changes, i) && SeenNames(changes, i, seen)
    {
      var c := changes[i];
      FaultIs(derive, layout, c);
      var at := CheckSelector(derive, layout, Selector(c.at, c.name));
      if at.Err? {
        FaultyChange(derive, layout, changes, i);
        return Err(at.error);
      }
      if c.at in seen {
        FaultySeen(derive, layout, changes, i, seen);
        return Err(if seen[c.at] != c.name then Collision else Duplicate);
      }
      if Ineffective(layout, c) {
        FaultyChange(derive, layout, changes, i);
        return Err(Undefined);
      }
      CheckedNext(derive, layout, changes, i, seen);
      seen := seen[c.at := c.name];
    }
    NoFaults(derive, layout, changes);
    return Ok(());
  }

  // A change without effect, or one that a List cannot make in place.
  predicate Ineffective(layout: Layout, c: Change) {
    (c.before == None && c.after == None) || (layout == ListLayout && (c.before == None || c.after == None))
  }

  lemma FaultIs(derive: Deriver, layout: Layout, c: Change)
    ensures var at := CheckSelector(derive, layout, Selector(c.at, c.name));
      && (at.Err? ==> ChangeFault(derive, layout, c) == Some(at.error) && at.error != Incomplete)
      && (at.Ok? ==> ChangeFault(derive, layout, c) == if Ineffective(layout, c) then Some(Undefined) else None)
  {
  }

  lemma FaultyChange(derive: Deriver, layout: Layout, changes: seq<Change>, i: nat)
    requires i < |changes| && ChangeFault(derive, layout, changes[i]).Some?
    ensures !GoodBatch(derive, layout, changes)
    ensures BatchFault(derive, layout, changes, ChangeFault(derive, layout, changes[i]).value)
  {
    hide ChangeFault;
    assert changes[i] in changes;
  }

  // The first changes, each without fault and at its own coordinate.
  ghost predicate Clean(derive: Deriver, layout: Layout, changes: seq<Change>, i: nat)
    requires i <= |changes|
  {
    && (forall j :: 0 <= j < i ==> ChangeFault(derive, layout, changes[j]) == None)
    && forall j, k :: 0 <= j < k < i ==> changes[j].at != changes[k].at
  }

  // Their coordinates with their labels.
  ghost predicate SeenNames(changes: seq<Change>, i: nat, seen: map<Coordinate, Label>)
    requires i <= |changes|
  {
    && (forall j :: 0 <= j < i ==> changes[j].at in seen && seen[changes[j].at] == changes[j].name)
    && forall at :: at in seen ==> exists j :: 0 <= j < i && changes[j].at == at
  }

  lemma NoneChecked(derive: Deriver, layout: Layout, changes: seq<Change>)
    ensures Clean(derive, layout, changes, 0) && SeenNames(changes, 0, map[])
  {
  }

  lemma CheckedNext(derive: Deriver, layout: Layout, changes: seq<Change>, i: nat, seen: map<Coordinate, Label>)
    requires i < |changes| && Clean(derive, layout, changes, i) && SeenNames(changes, i, seen)
    requires ChangeFault(derive, layout, changes[i]) == None && changes[i].at !in seen
    ensures Clean(derive, layout, changes, i + 1)
    ensures SeenNames(changes, i + 1, seen[changes[i].at := changes[i].name])
  {
    hide ChangeFault;
  }

  lemma FaultySeen(derive: Deriver, layout: Layout, changes: seq<Change>, i: nat, seen: map<Coordinate, Label>)
    requires i < |changes| && SeenNames(changes, i, seen) && changes[i].at in seen
    ensures !GoodBatch(derive, layout, changes)
    ensures BatchFault(derive, layout, changes,
                       if seen[changes[i].at] == changes[i].name then Duplicate else Collision)
  {
    hide ChangeFault;
    var j :| 0 <= j < i && changes[j].at == changes[i].at;
    assert AtOf()(changes[j]) == AtOf()(changes[i]);
    assert Clash(changes[j].at, changes[j].name, changes[i].at, changes[i].name,
                 if changes[j].name == changes[i].name then Duplicate else Collision);
  }

  lemma NoFaults(derive: Deriver, layout: Layout, changes: seq<Change>)
    requires Clean(derive, layout, changes, |changes|)
    ensures GoodBatch(derive, layout, changes)
  {
    hide ChangeFault;
  }

  // ---- A batch in the caller's terms ----

  // A Map change inserts, replaces or deletes; a List change replaces.
  ghost predicate Effective(layout: Layout, c: Change) {
    if layout == MapLayout then c.before.Some? || c.after.Some? else c.before.Some? && c.after.Some?
  }

  // Every label derives to its coordinate, every change has an effect, and no two
  // changes share a coordinate.
  ghost predicate Proper(derive: Deriver, layout: Layout, changes: seq<Change>) {
    && (forall c :: c in changes ==> Selects(derive, layout, Selector(c.at, c.name)) && Effective(layout, c))
    && forall i, j :: 0 <= i < j < |changes| ==> changes[i].at != changes[j].at
  }

  // The fault an error names.
  ghost predicate Improper(derive: Deriver, layout: Layout, changes: seq<Change>, e: Error) {
    match e
    case BadSelector => exists c :: c in changes && !Selects(derive, layout, Selector(c.at, c.name))
    case Undefined =>
      exists c :: c in changes && Selects(derive, layout, Selector(c.at, c.name)) && !Effective(layout, c)
    case Duplicate => exists i, j :: 0 <= i < j < |changes| && SameAt(changes[i], changes[j], true)
    case Collision => exists i, j :: 0 <= i < j < |changes| && SameAt(changes[i], changes[j], false)
    case _ => false
  }

  ghost predicate SameAt(c: Change, d: Change, sameLabel: bool) {
    c.at == d.at && (c.name == d.name <==> sameLabel)
  }

  lemma ChangeFaultIs(derive: Deriver, layout: Layout, c: Change)
    ensures var sel := Selector(c.at, c.name);
      ChangeFault(derive, layout, c) == if !Selects(derive, layout, sel) then Some(BadSelector)
        else if !Effective(layout, c) then Some(Undefined) else None
  {
    CheckSelectorIs(derive, layout, Selector(c.at, c.name));
  }

  lemma GoodBatchIs(derive: Deriver, layout: Layout, changes: seq<Change>)
    ensures GoodBatch(derive, layout, changes) <==> Proper(derive, layout, changes)
    ensures forall e :: BatchFault(derive, layout, changes, e) ==> Improper(derive, layout, changes, e)
  {
    hide ChangeFault, Selects, Effective, CheckSelector;
    forall c: Change
      ensures var sel := Selector(c.at, c.name);
        ChangeFault(derive, layout, c) == if !Selects(derive, layout, sel) then Some(BadSelector)
          else if !Effective(layout, c) then Some(Undefined) else None
    {
      ChangeFaultIs(derive, layout, c);
    }
    DistinctAts(changes);
    forall e | BatchFault(derive, layout, changes, e)
      ensures Improper(derive, layout, changes, e)
    {
      if i, j :| 0 <= i < j < |changes| && Clash(changes[i].at, changes[i].name, changes[j].at, changes[j].name, e) {
        assert SameAt(changes[i], changes[j], changes[i].name == changes[j].name);
      }
    }
  }

  lemma DistinctAts(changes: seq<Change>)
    ensures Distinct(changes, AtOf()) <==> forall i, j :: 0 <= i < j < |changes| ==> changes[i].at != changes[j].at
  {
    forall i, j | 0 <= i < j < |changes|
      ensures AtOf()(changes[i]) != AtOf()(changes[j]) <==> changes[i].at != changes[j].at
    {
    }
  }

  // ---- Map updates ----

  function KeyChanges(changes: seq<Change>): (r: seq<KeyChange>)
    requires forall c :: c in changes ==> c.at.AtKey?
    ensures |r| == |changes|
    ensures forall i :: 0 <= i < |r| ==>
      r[i] == KeyChange(changes[i].at.key, changes[i].name, changes[i].before, changes[i].after)
  {
    seq(|changes|, i requires 0 <= i < |changes| =>
      KeyChange(changes[i].at.key, changes[i].name, changes[i].before, changes[i].after))
  }

  lemma KeyBatch(derive: Deriver, changes: seq<Change>)
    requires GoodBatch(derive, MapLayout, changes)
    ensures forall c :: c in changes ==> c.at.AtKey?
    ensures Distinct(KeyChanges(changes), ChangeKey())
    ensures forall c :: c in KeyChanges(changes) ==> derive(c.name) == Some(AtKey(c.key))
  {
    forall c | c in changes
      ensures c.at.AtKey? && derive(c.name) == Some(c.at)
    {
      assert ChangeFault(derive, MapLayout, c) == None;
    }
    var ks := KeyChanges(changes);
    forall i, j | 0 <= i < j < |ks|
      ensures ChangeKey()(ks[i]) != ChangeKey()(ks[j])
    {
      assert AtOf()(changes[i]) != AtOf()(changes[j]);
    }
  }

  // A batch is accepted exactly when it is proper and every expectation holds, and
  // then gives the canonical root of the updated bindings.
  ghost predicate MapOutcome(b: Radix, derive: Deriver, m: map<Key, Entry>, changes: seq<Change>,
                             r: Result<Ref, Error>) {
    if !Proper(derive, MapLayout, changes) then r.Err? && Improper(derive, MapLayout, changes, r.error)
    else if !AllExpected(m, KeyChanges(changes)) then r.Err? && Unexpected(m, KeyChanges(changes), r.error)
    else exists after :: Updated(m, KeyChanges(changes), after) && r == Ok(MapRoot(b, after))
  }

  lemma MapOutcomeIs(b: Radix, derive: Deriver, m: map<Key, Entry>, changes: seq<Change>)
    ensures !GoodBatch(derive, MapLayout, changes) ==> (
      forall e :: BatchFault(derive, MapLayout, changes, e) ==> MapOutcome(b, derive, m, changes, Err(e)))
    ensures changes == [] ==> MapOutcome(b, derive, m, changes, Ok(MapRoot(b, m)))
    ensures GoodBatch(derive, MapLayout, changes) ==> (
      && (forall c :: c in changes ==> c.at.AtKey?)
      && if Accepted(m, KeyChanges(changes))
         then MapOutcome(b, derive, m, changes, Ok(MapRoot(b, Patch(m, KeyChanges(changes)))))
         else forall e :: RefusedFor(m, KeyChanges(changes), e) ==> MapOutcome(b, derive, m, changes, Err(e)))
  {
    hide GoodBatch, BatchFault, Proper, Improper, MapRoot, Patch, Accepted, RefusedFor, Unexpected, Distinct;
    GoodBatchIs(derive, MapLayout, changes);
    if GoodBatch(derive, MapLayout, changes) {
      KeyBatch(derive, changes);
      AcceptedIs(m, KeyChanges(changes));
      PatchIs(m, KeyChanges(changes));
    }
    if changes == [] {
      NothingUpdated(derive, m);
    }
  }

  lemma NothingUpdated(derive: Deriver, m: map<Key, Entry>)
    ensures Updated(m, [], m) && AllExpected(m, []) && Proper(derive, MapLayout, [])
  {
  }

  // Copies only the affected paths. On a canonical root the batch succeeds
  // exactly when every expectation holds, and the new root is the one a complete
  // construction of the updated bindings gives; otherwise nothing is written.
  method ApplyMap(nodes: Workspace, derive: Deriver, root: Ref, changes: seq<Change>, ghost m: map<Key, Entry>)
    returns (r: Result<Ref, Error>)
    requires nodes.Valid() && root.layout == MapLayout
    modifies nodes
    ensures nodes.Valid() && nodes.known.Keys >= old(nodes.known.Keys)
    ensures r.Ok? ==> r.value in nodes.known || r.value == root
    ensures r.Err? ==> nodes.written == old(nodes.written)
    ensures CanonicalMap(nodes.b, derive, root, m) && root in old(nodes.known) ==>
      if !GoodBatch(derive, MapLayout, changes) then r.Err? && BatchFault(derive, MapLayout, changes, r.error)
      else if changes == [] then r == Ok(root)
      else if Accepted(m, KeyChanges(changes)) then r == Ok(MapRoot(nodes.b, Patch(m, KeyChanges(changes))))
      else r.Err? && RefusedFor(m, KeyChanges(changes), r.error)
    ensures CanonicalMap(nodes.b, derive, root, m) && root in old(nodes.known) ==>
      MapOutcome(nodes.b, derive, m, changes, r)
    ensures root in old(nodes.known) && r.Err? ==> r.error != Incomplete
  {
    hide NodeEdit.Valid, MapNode, Patch, Accepted, RefusedFor, BatchFault, Distinct, OnPath, WellTagged, MapOutcome;
    MapOutcomeIs(nodes.b, derive, m, changes);
    var u := new NodeEdit(nodes);
    EditNodes(u);
    var checked := CheckBatch(derive, MapLayout, changes);
    if checked.Err? {
      return Err(checked.error);
    }
    if changes == [] {
      return Ok(root);
    }
    KeyBatch(derive, changes);
    if root !in nodes.known {
      return Err(Incomplete);
    }
    RootPath(nodes.b, derive, root, m);
    var cells := EditNode(u, derive, root, 0, KeyChanges(changes), [], m);
    EditNodes(u);
    if cells.Err? {
      return Err(cells.error);
    }
    MapMeta(nodes.b, Patch(m, KeyChanges(changes)), 0);
    MapCells(cells.value, u.Avail());
    var node := u.Commit(MapLayout, cells.value);
    var done := u.Finish(node);
    return Ok(node);
  }

  lemma RootPath(b: Radix, derive: Deriver, root: Ref, m: map<Key, Entry>)
    ensures CanonicalMap(b, derive, root, m) ==> IsMapNode(b, derive, root, m, [])
    ensures forall k :: OnPath(b, k, [])
  {
  }

  // ---- List updates ----

  function Edits(changes: seq<Change>): (r: seq<Edit>)
    requires forall c :: c in changes ==> c.at.AtIndex? && c.before.Some? && c.after.Some?
    ensures |r| == |changes|
    ensures forall i :: 0 <= i < |r| ==>
      r[i] == Edit(changes[i].at.index, changes[i].before.value, changes[i].after.value)
  {
    seq(|changes|, i requires 0 <= i < |changes| =>
      Edit(changes[i].at.index, changes[i].before.value, changes[i].after.value))
  }

  lemma EditBatch(derive: Deriver, changes: seq<Change>)
    requires GoodBatch(derive, ListLayout, changes)
    ensures forall c :: c in changes ==> c.at.AtIndex? && c.before.Some? && c.after.Some?
    ensures Distinct(Edits(changes), (e: Edit) => e.index)
  {
    forall c | c in changes
      ensures c.at.AtIndex? && c.before.Some? && c.after.Some?
    {
      assert ChangeFault(derive, ListLayout, c) == None;
    }
    var es, key := Edits(changes), (e: Edit) => e.index;
    forall i, j | 0 <= i < j < |es|
      ensures key(es[i]) != key(es[j])
    {
      assert AtOf()(changes[i]) != AtOf()(changes[j]);
    }
  }

  // The index exists and holds the old target.
  ghost predicate Holds(items: seq<Target>, c: Change) {
    c.at.AtIndex? && c.at.index < |items| && c.before == Some(items[c.at.index])
  }

  // Every changed index has its new target, every other one is as before.
  ghost predicate ListUpdated(items: seq<Target>, changes: seq<Change>, after: seq<Target>) {
    && |after| == |items|
    && (forall c :: c in changes ==> c.at.AtIndex? && c.at.index < |after| && c.after == Some(after[c.at.index]))
    && forall i: U64 :: i < |items| && (forall c :: c in changes ==> c.at != AtIndex(i)) ==> after[i] == items[i]
  }

  // Replacements are accepted exactly when every index holds its old target.
  ghost predicate ListOutcome(b: Radix, derive: Deriver, items: seq<Target>, payload: Option<Target>,
                              changes: seq<Change>, r: Result<Ref, Error>)
    requires |items| < TWO64
  {
    if !Proper(derive, ListLayout, changes) then r.Err? && Improper(derive, ListLayout, changes, r.error)
    else if !(forall c :: c in changes ==> Holds(items, c)) then r == Err(Mismatch)
    else exists after :: ListUpdated(items, changes, after) && r == Ok(ListRoot(b, after, payload))
  }

  lemma MatchesIs(items: seq<Target>, changes: seq<Change>)
    requires forall c :: c in changes ==> c.at.AtIndex? && c.before.Some? && c.after.Some?
    ensures Matches(items, Edits(changes), 0) <==> forall c :: c in changes ==> Holds(items, c)
  {
    var es := Edits(changes);
    forall i | 0 <= i < |changes|
      ensures changes[i] in changes && es[i] in es
      ensures Hit(items, es[i], 0) <==> Holds(items, changes[i])
    {
    }
  }

  lemma PatchedIs(items: seq<Target>, changes: seq<Change>)
    requires forall c :: c in changes ==> c.at.AtIndex? && c.before.Some? && c.after.Some?
    requires Distinct(Edits(changes), (e: Edit) => e.index) && forall c :: c in changes ==> Holds(items, c)
    ensures ListUpdated(items, changes, Patched(items, Edits(changes), 0))
  {
    hide AfterAt, Distinct;
    var es, after := Edits(changes), Patched(items, Edits(changes), 0);
    forall c | c in changes
      ensures c.after == Some(after[c.at.index])
    {
      var i :| 0 <= i < |changes| && changes[i] == c;
      assert es[i] in es;
      AfterAtIs(es, c.at.index, items[c.at.index]);
    }
    forall i: U64 | i < |items| && forall c :: c in changes ==> c.at != AtIndex(i)
      ensures after[i] == items[i]
    {
      AfterAtIs(es, i, items[i]);
    }
  }

  lemma ListOutcomeIs(b: Radix, derive: Deriver, items: seq<Target>, payload: Option<Target>, changes: seq<Change>)
    requires |items| < TWO64
    ensures !GoodBatch(derive, ListLayout, changes) ==> (
      forall e :: BatchFault(derive, ListLayout, changes, e) ==>
        ListOutcome(b, derive, items, payload, changes, Err(e)))
    ensures changes == [] ==> ListOutcome(b, derive, items, payload, changes, Ok(ListRoot(b, items, payload)))
    ensures GoodBatch(derive, ListLayout, changes) ==> (
      && (forall c :: c in changes ==> c.at.AtIndex? && c.before.Some? && c.after.Some?)
      && ListOutcome(b, derive, items, payload, changes,
           if Matches(items, Edits(changes), 0) then Ok(ListRoot(b, Patched(items, Edits(changes), 0), payload))
           else Err(Mismatch)))
  {
    hide GoodBatch, BatchFault, Proper, Improper, ListRoot, Patched, Matches, Holds, Distinct;
    GoodBatchIs(derive, ListLayout, changes);
    if GoodBatch(derive, ListLayout, changes) {
      EditBatch(derive, changes);
      MatchesIs(items, changes);
      if Matches(items, Edits(changes), 0) {
        PatchedIs(items, changes);
      }
    }
    if changes == [] {
      NothingReplaced(derive, items);
    }
  }

  lemma NothingReplaced(derive: Deriver, items: seq<Target>)
    ensures ListUpdated(items, [], items) && Proper(derive, ListLayout, [])
  {
  }

  // Replaces targets at existing indices.
  method ApplyList(nodes: Workspace, derive: Deriver, root: Ref, changes: seq<Change>,
                   ghost items: seq<Target>, ghost payload: Option<Target>)
    returns (r: Result<Ref, Error>)
    requires nodes.Valid() && root.layout == ListLayout
    modifies nodes
    ensures nodes.Valid() && nodes.known.Keys >= old(nodes.known.Keys)
    ensures r.Ok? ==> r.value in nodes.known || r.value == root
    ensures r.Err? ==> nodes.written == old(nodes.written)
    ensures Canonical(nodes.b, root, items, payload) && root in old(nodes.known) ==>
      if !GoodBatch(derive, ListLayout, changes) then r.Err? && BatchFault(derive, ListLayout, changes, r.error)
      else if changes == [] then r == Ok(root)
      else if Matches(items, Edits(changes), 0)
      then r == Ok(ListRoot(nodes.b, Patched(items, Edits(changes), 0), payload))
      else r == Err(Mismatch)
    ensures Canonical(nodes.b, root, items, payload) && root in old(nodes.known) ==>
      ListOutcome(nodes.b, derive, items, payload, changes, r)
    ensures root in old(nodes.known) && r.Err? ==> r.error != Incomplete
  {
    hide NodeEdit.Valid, ListNode, Matches, BatchFault, Distinct, WellTagged, HeightOf, Position.Fits, Patched, ShapeOk,
      ListOutcome, GoodBatch, ChangeFault, CheckSelector;
    var b := nodes.b;
    if |items| < TWO64 {
      ListOutcomeIs(b, derive, items, payload, changes);
    }
    var u := new NodeEdit(nodes);
    EditNodes(u);
    var checked := CheckBatch(derive, ListLayout, changes);
    if checked.Err? {
      return Err(checked.error);
    }
    if changes == [] {
      return Ok(root);
    }
    EditBatch(derive, changes);
    var edits := Edits(changes);
    var got := u.GetNode(root);
    EditNodes(u);
    if got.Err? {
      return Err(got.error);
    }
    var meta := ParseMetadata(got.value[0]);
    ghost var canonical := Canonical(b, root, items, payload);
    if canonical {
      CanonicalRoot(b, items, payload);
    }
    if meta.Err? {
      return Err(meta.error);
    }
    for i := 0 to |edits|
      invariant forall j :: 0 <= j < i ==> edits[j].index < meta.value.count
    {
      if edits[i].index >= meta.value.count {
        if canonical {
          BeyondEnd(items, edits, i);
        }
        return Err(Mismatch);
      }
    }
    var p := RootPosition(meta.value.count, b);
    RootPositionIsLeast(meta.value.count, b);
    AllWithin(edits, p);
    ghost var all := if canonical then items else seq(meta.value.count, _ => []);
    var node := ReplaceNode(u, root, p, 0, edits, all, Root(meta.value.payload));
    EditNodes(u);
    if node.Err? {
      return Err(node.error);
    }
    var done := u.Finish(node.value);
    return Ok(node.value);
  }

  lemma BeyondEnd(items: seq<Target>, edits: seq<Edit>, i: nat)
    requires i < |edits| && edits[i].index >= |items|
    ensures !Matches(items, edits, 0)
  {
    assert edits[i] in edits && !Hit(items, edits[i], 0);
  }

  lemma AllWithin(edits: seq<Edit>, p: Position)
    requires forall j :: 0 <= j < |edits| ==> edits[j].index < p.count
    ensures Within(edits, p, 0)
  {
  }

  // ---- Complete construction ----

  datatype ViewBinding = ViewBinding(at: Coordinate, name: Label, target: Option<Target>)

  datatype View = View(layout: Layout, bindings: seq<ViewBinding>, payload: Option<Target>)

  function BindingAt(): ViewBinding -> Coordinate {
    (v: ViewBinding) => v.at
  }

  function BindingFault(derive: Deriver, layout: Layout, v: ViewBinding): Option<Error> {
    var at := CheckSelector(derive, layout, Selector(v.at, v.name));
    if at.Err? then Some(at.error) else if v.target == None then Some(Undefined) else None
  }

  ghost predicate GoodBindings(derive: Deriver, view: View) {
    forall v :: v in view.bindings ==> BindingFault(derive, view.layout, v) == None
  }

  // The bindings of a Map view with their keys.
  function MapItems(bindings: seq<ViewBinding>): (r: seq<Binding>)
    requires forall v :: v in bindings ==> v.at.AtKey? && v.target.Some?
    ensures |r| == |bindings|
    ensures forall i :: 0 <= i < |r| ==> r[i] == Binding(bindings[i].at.key, bindings[i].name, bindings[i].target.value)
  {
    seq(|bindings|, i requires 0 <= i < |bindings| =>
      Binding(bindings[i].at.key, bindings[i].name, bindings[i].target.value))
  }

  // The list a view of dense indices stands for.
  ghost predicate ListOf(bindings: seq<ViewBinding>, items: seq<Target>) {
    && |items| == |bindings| && Distinct(bindings, BindingAt())
    && forall v :: v in bindings ==>
        v.at.AtIndex? && v.at.index < |items| && v.target == Some(items[v.at.index])
  }

  method CheckBindings(derive: Deriver, view: View) returns (r: Result<(), Error>)
    ensures if GoodBindings(derive, view) then r.Ok?
      else r.Err? && exists v :: v in view.bindings && BindingFault(derive, view.layout, v) == Some(r.error)
  {
    for i := 0 to |view.bindings|
      invariant forall v :: v in view.bindings[..i] ==> BindingFault(derive, view.layout, v) == None
    {
      var v := view.bindings[i];
      var fault := BindingFault(derive, view.layout, v);
      if fault.Some? {
        return Err(fault.value);
      }
      assert view.bindings[..i + 1] == view.bindings[..i] + [v];
    }
    assert view.bindings[..|view.bindings|] == view.bindings;
    return Ok(());
  }

  // Sorted neighbours reveal every repeated key.
  method CheckKeys(items: seq<Binding>) returns (r: Result<(), Error>)
    requires Sorted(items, KeyLess())
    ensures if Distinct(items, KeyOf()) then r.Ok? else r.Err?
    ensures r.Err? ==> KeyClash(items, r.error)
  {
    var i := 1;
    while i < |items|
      invariant 1 <= i
      invariant forall j, k :: 0 <= j < k < i && k < |items| ==> items[j].key != items[k].key
    {
      if items[i - 1].key == items[i].key {
        assert KeyOf()(items[i - 1]) == KeyOf()(items[i]);
        return Err(if items[i - 1].name != items[i].name then Collision else Duplicate);
      }
      forall j | 0 <= j < i
        ensures items[j].key != items[i].key
      {
        SortedApart(items, j, i);
      }
      i := i + 1;
    }
    return Ok(());
  }

  ghost predicate KeyClash(items: seq<Binding>, e: Error) {
    exists i, j :: 0 <= i < j < |items| &&
                   Clash(AtKey(items[i].key), items[i].name, AtKey(items[j].key), items[j].name, e)
  }

  lemma SortedApart(items: seq<Binding>, j: nat, i: nat)
    requires Sorted(items, KeyLess()) && 0 <= j < i < |items| && items[i - 1].key != items[i].key
    ensures items[j].key != items[i].key
  {
    assert !KeyLess()(items[i], items[i - 1]);
    LessTotal(items[i - 1].key, items[i].key);
    if j < i - 1 {
      assert !KeyLess()(items[i - 1], items[j]);
    }
  }

  datatype ListItem = ListItem(index: U64, target: Target)

  // The bindings of a List view with their indices.
  function ListItems(bindings: seq<ViewBinding>): (r: seq<ListItem>)
    requires forall v :: v in bindings ==> v.at.AtIndex? && v.target.Some?
    ensures |r| == |bindings|
    ensures forall i :: 0 <= i < |r| ==> r[i] == ListItem(bindings[i].at.index, bindings[i].target.value)
  {
    seq(|bindings|, i requires 0 <= i < |bindings| => ListItem(bindings[i].at.index, bindings[i].target.value))
  }

  function IndexLess(): (ListItem, ListItem) -> bool {
    (x: ListItem, y: ListItem) => x.index < y.index
  }

  // Dense and unique: the i-th smallest index is i.
  method DenseTargets(items: seq<ListItem>) returns (r: Result<seq<Target>, Error>)
    ensures r.Ok? <==> forall i :: 0 <= i < |items| ==> items[i].index == i
    ensures r.Ok? ==> |r.value| == |items| && forall i :: 0 <= i < |items| ==> r.value[i] == items[i].target
    ensures r.Err? ==> r.error == OutOfRange
  {
    var targets: seq<Target> := [];
    for i := 0 to |items|
      invariant |targets| == i
      invariant forall j :: 0 <= j < i ==> items[j].index == j && targets[j] == items[j].target
    {
      if items[i].index != i {
        return Err(OutOfRange);
      }
      targets := targets + [items[i].target];
    }
    return Ok(targets);
  }

  // A sorted batch of the indices 0..n-1, each once, has index i at place i.
  lemma {:induction false} SortedDense(items: seq<ListItem>, i: nat)
    requires Sorted(items, IndexLess()) && i < |items|
    requires forall x :: x in items ==> x.index < |items|
    requires forall j, k :: 0 <= j < k < |items| ==> items[j].index != items[k].index
    ensures items[i].index == i
  {
    Climbs(items, i);
    Climbs(items, |items| - 1);
    ClimbsFrom(items, i, |items| - 1);
  }

  lemma {:induction false} Climbs(items: seq<ListItem>, i: nat)
    requires Sorted(items, IndexLess()) && i < |items|
    requires forall j, k :: 0 <= j < k < |items| ==> items[j].index != items[k].index
    ensures items[i].index >= i
  {
    if i > 0 {
      Climbs(items, i - 1);
      assert !IndexLess()(items[i], items[i - 1]);
    }
  }

  lemma {:induction false} ClimbsFrom(items: seq<ListItem>, i: nat, j: nat)
    requires Sorted(items, IndexLess()) && i <= j < |items|
    requires forall j, k :: 0 <= j < k < |items| ==> items[j].index != items[k].index
    ensures items[j].index >= items[i].index + (j - i)
  {
    if i < j {
      ClimbsFrom(items, i, j - 1);
      assert !IndexLess()(items[j], items[j - 1]);
    }
  }

  // Sorts and checks a List view.
  method ListTargets(bindings: seq<ViewBinding>) returns (r: Result<seq<Target>, Error>)
    requires forall v :: v in bindings ==> v.at.AtIndex? && v.target.Some?
    ensures r.Ok? ==> ListOf(bindings, r.value)
    ensures r.Err? ==> r.error == OutOfRange && !exists items :: ListOf(bindings, items)
  {
    var items := ListItems(bindings);
    var sorted := Sort(items, IndexLess());
    SortSorts(items, IndexLess());
    SortMembers(items, IndexLess());
    r := DenseTargets(sorted);
    if r.Ok? {
      DenseIsList(bindings, items, sorted, r.value);
    } else {
      forall list | ListOf(bindings, list)
        ensures false
      {
        ListIsDense(bindings, items, sorted, list);
      }
    }
  }

  lemma DenseIsList(bindings: seq<ViewBinding>, items: seq<ListItem>, sorted: seq<ListItem>, list: seq<Target>)
    requires forall v :: v in bindings ==> v.at.AtIndex? && v.target.Some?
    requires items == ListItems(bindings) && multiset(items) == multiset(sorted) && |sorted| == |items| == |list|
    requires forall i :: 0 <= i < |sorted| ==> sorted[i].index == i && list[i] == sorted[i].target
    ensures ListOf(bindings, list)
  {
    var key := (x: ListItem) => x.index;
    PermutedDistinct(sorted, items, key);
    forall i, j | 0 <= i < j < |bindings|
      ensures BindingAt()(bindings[i]) != BindingAt()(bindings[j])
    {
      assert key(items[i]) != key(items[j]);
    }
    forall v | v in bindings
      ensures v.at.index < |list| && v.target == Some(list[v.at.index])
    {
      var i :| 0 <= i < |bindings| && bindings[i] == v;
      assert items[i] in multiset(sorted);
    }
  }

  lemma ListIsDense(bindings: seq<ViewBinding>, items: seq<ListItem>, sorted: seq<ListItem>, list: seq<Target>)
    requires forall v :: v in bindings ==> v.at.AtIndex? && v.target.Some?
    requires items == ListItems(bindings) && multiset(items) == multiset(sorted) && |sorted| == |items|
    requires Sorted(sorted, IndexLess()) && ListOf(bindings, list)
    ensures forall i :: 0 <= i < |sorted| ==> sorted[i].index == i
  {
    var key := (x: ListItem) => x.index;
    forall i, j | 0 <= i < j < |items|
      ensures key(items[i]) != key(items[j])
    {
      assert BindingAt()(bindings[i]) != BindingAt()(bindings[j]);
    }
    PermutedDistinct(items, sorted, key);
    forall x | x in sorted
      ensures x.index < |sorted|
    {
      assert x in multiset(items);
      var i :| 0 <= i < |items| && items[i] == x;
      assert bindings[i] in bindings;
    }
    forall i | 0 <= i < |sorted|
      ensures sorted[i].index == i
    {
      forall j, k | 0 <= j < k < |sorted|
        ensures sorted[j].index != sorted[k].index
      {
        assert key(sorted[j]) != key(sorted[k]);
      }
      SortedDense(sorted, i);
    }
  }

  // What a complete construction accepts and gives.
  ghost predicate Constructs(b: Radix, derive: Deriver, view: View, root: Ref) {
    && GoodBindings(derive, view)
    && if view.layout == MapLayout
       then view.payload == None && (forall v :: v in view.bindings ==> v.at.AtKey? && v.target.Some?)
         && Distinct(MapItems(view.bindings), KeyOf()) && root == MapRoot(b, ToMap(MapItems(view.bindings)))
       else exists items :: ListOf(view.bindings, items) && |items| < TWO64 && root == ListRoot(b, items, view.payload)
  }

  // ---- A view in the caller's terms ----

  ghost predicate BindingFits(derive: Deriver, layout: Layout, v: ViewBinding) {
    Selects(derive, layout, Selector(v.at, v.name)) && v.target.Some?
  }

  ghost predicate Apart(bindings: seq<ViewBinding>) {
    forall i, j :: 0 <= i < j < |bindings| ==> bindings[i].at != bindings[j].at
  }

  // Every label derives to its coordinate and has a target, no coordinate is listed
  // twice, a Map has no payload, and the indices of a List are below its length.
  ghost predicate ViewFits(derive: Deriver, view: View) {
    && (forall v :: v in view.bindings ==> BindingFits(derive, view.layout, v)) && Apart(view.bindings)
    && if view.layout == MapLayout then view.payload == None
       else forall v :: v in view.bindings ==> v.at.AtIndex? && v.at.index < |view.bindings|
  }

  // The fault an error names.
  ghost predicate ViewRefused(derive: Deriver, view: View, e: Error) {
    match e
    case BadSelector =>
      exists v :: v in view.bindings && !Selects(derive, view.layout, Selector(v.at, v.name))
    case Undefined => exists v :: v in view.bindings && v.target == None
    case BadNode => view.layout == MapLayout && view.payload.Some?
    case Duplicate => view.layout == MapLayout && ListsTwice(view.bindings, true)
    case Collision => view.layout == MapLayout && ListsTwice(view.bindings, false)
    case OutOfRange => view.layout == ListLayout && (
      !Apart(view.bindings) || exists v :: v in view.bindings && v.at.AtIndex? && v.at.index >= |view.bindings|)
    case _ => false
  }

  ghost predicate ListsTwice(bindings: seq<ViewBinding>, sameLabel: bool) {
    exists i, j :: 0 <= i < j < |bindings| && bindings[i].at == bindings[j].at
      && (bindings[i].name == bindings[j].name <==> sameLabel)
  }

  lemma BindingFaultIs(derive: Deriver, layout: Layout, v: ViewBinding)
    ensures BindingFault(derive, layout, v)
      == if !Selects(derive, layout, Selector(v.at, v.name)) then Some(BadSelector)
         else if v.target == None then Some(Undefined) else None
  {
    CheckSelectorIs(derive, layout, Selector(v.at, v.name));
  }

  lemma BindingRefused(derive: Deriver, view: View, e: Error)
    requires exists v :: v in view.bindings && BindingFault(derive, view.layout, v) == Some(e)
    ensures ViewRefused(derive, view, e)
  {
    hide BindingFault, Selects;
    var v :| v in view.bindings && BindingFault(derive, view.layout, v) == Some(e);
    BindingFaultIs(derive, view.layout, v);
  }

  // Some root can be constructed exactly for the views that fit.
  lemma ConstructsIs(b: Radix, derive: Deriver, view: View)
    requires |view.bindings| < TWO64
    ensures (exists root :: Constructs(b, derive, view, root)) <==> ViewFits(derive, view)
  {
    hide BindingFault, Selects, MapRoot, ListRoot, ToMap, MapItems, ListOf, Distinct;
    forall v: ViewBinding
      ensures BindingFault(derive, view.layout, v) == None <==> BindingFits(derive, view.layout, v)
    {
      BindingFaultIs(derive, view.layout, v);
    }
    if GoodBindings(derive, view) {
      GoodKinds(derive, view);
      if view.layout == MapLayout {
        MapApart(view.bindings);
        assert view.payload == None && Apart(view.bindings) ==>
          Constructs(b, derive, view, MapRoot(b, ToMap(MapItems(view.bindings))));
      } else {
        ListApart(view.bindings);
        if items :| ListOf(view.bindings, items) {
          ListLength(view.bindings, items);
          assert Constructs(b, derive, view, ListRoot(b, items, view.payload));
        }
      }
    }
  }

  lemma MapApart(bindings: seq<ViewBinding>)
    requires forall v :: v in bindings ==> v.at.AtKey? && v.target.Some?
    ensures Distinct(MapItems(bindings), KeyOf()) <==> Apart(bindings)
  {
    var items := MapItems(bindings);
    forall i, j | 0 <= i < j < |items|
      ensures KeyOf()(items[i]) != KeyOf()(items[j]) <==> bindings[i].at != bindings[j].at
    {
      assert bindings[i] in bindings && bindings[j] in bindings;
    }
  }

  lemma ListApart(bindings: seq<ViewBinding>)
    requires forall v :: v in bindings ==> v.at.AtIndex? && v.target.Some?
    ensures (exists items :: ListOf(bindings, items))
      <==> Apart(bindings) && forall v :: v in bindings ==> v.at.index < |bindings|
  {
    forall i, j | 0 <= i < j < |bindings|
      ensures BindingAt()(bindings[i]) != BindingAt()(bindings[j]) <==> bindings[i].at != bindings[j].at
    {
    }
    if Apart(bindings) && forall v :: v in bindings ==> v.at.index < |bindings| {
      var items := seq(|bindings|, k requires 0 <= k < |bindings| => TargetAt(bindings, k));
      forall v | v in bindings
        ensures v.target == Some(TargetAt(bindings, v.at.index))
      {
        TargetIs(bindings, v);
      }
      assert ListOf(bindings, items);
    }
  }

  ghost function TargetAt(bindings: seq<ViewBinding>, k: nat): Target {
    if v :| v in bindings && v.at.AtIndex? && v.at.index == k && v.target.Some? then v.target.value else []
  }

  lemma TargetIs(bindings: seq<ViewBinding>, v: ViewBinding)
    requires Apart(bindings) && v in bindings && v.at.AtIndex? && v.target.Some?
    ensures v.target == Some(TargetAt(bindings, v.at.index))
  {
  }

  lemma GoodKinds(derive: Deriver, view: View)
    requires GoodBindings(derive, view)
    ensures forall v :: v in view.bindings ==> v.target.Some? && v.at.AtKey? == (view.layout == MapLayout)
    ensures forall v :: v in view.bindings ==> derive(v.name) == Some(v.at)
  {
    forall v | v in view.bindings
      ensures v.target.Some? && v.at.AtKey? == (view.layout == MapLayout) && derive(v.name) == Some(v.at)
    {
      assert BindingFault(derive, view.layout, v) == None;
    }
  }

  // Builds the canonical root of a complete view, whatever the order of its
  // bindings, and succeeds exactly when the view is a proper one.
  method Commit(nodes: Workspace, derive: Deriver, view: View) returns (r: Result<Ref, Error>)
    requires nodes.Valid() && |view.bindings| < TWO64
    modifies nodes
    ensures nodes.Valid() && nodes.known.Keys >= old(nodes.known.Keys)
    ensures r.Ok? ==> r.value in nodes.known && Constructs(nodes.b, derive, view, r.value)
    ensures r.Err? ==> nodes.written == old(nodes.written) && forall root :: !Constructs(nodes.b, derive, view, root)
    ensures if ViewFits(derive, view) then r.Ok? else r.Err? && ViewRefused(derive, view, r.error)
  {
    hide NodeEdit.Valid, MapNode, ListNode, Distinct, HeightOf, ListOf, ToMap, MapItems, GoodBindings, ViewFits,
      ViewRefused, KeyClash;
    ConstructsIs(nodes.b, derive, view);
    RefusedIs(derive, view);
    var checked := CheckBindings(derive, view);
    if checked.Err? {
      return Err(checked.error);
    }
    GoodKinds(derive, view);
    var u := new NodeEdit(nodes);
    EditNodes(u);
    if view.layout == MapLayout && view.payload.Some? {
      return Err(BadNode);
    }
    if view.layout == MapLayout {
      r := CommitMap(u, view.bindings);
    } else {
      r := CommitList(u, view.bindings, view.payload);
    }
    if r.Ok? {
      var done := u.Finish(r.value);
    }
  }

  // The errors of each stage name a fault of the view.
  lemma RefusedIs(derive: Deriver, view: View)
    ensures forall e :: (exists v :: v in view.bindings && BindingFault(derive, view.layout, v) == Some(e)) ==>
      ViewRefused(derive, view, e)
    ensures view.layout == MapLayout && view.payload.Some? ==> ViewRefused(derive, view, BadNode)
    ensures view.layout == MapLayout && (forall v :: v in view.bindings ==> v.at.AtKey? && v.target.Some?) ==>
      forall e :: KeyClash(MapItems(view.bindings), e) ==> ViewRefused(derive, view, e)
    ensures view.layout == ListLayout && (forall v :: v in view.bindings ==> v.at.AtIndex? && v.target.Some?) ==>
      (exists items :: ListOf(view.bindings, items)) || ViewRefused(derive, view, OutOfRange)
  {
    hide BindingFault, Selects, ListOf;
    forall e | exists v :: v in view.bindings && BindingFault(derive, view.layout, v) == Some(e)
      ensures ViewRefused(derive, view, e)
    {
      BindingRefused(derive, view, e);
    }
    if view.layout == MapLayout && forall v :: v in view.bindings ==> v.at.AtKey? && v.target.Some? {
      ClashListed(view.bindings);
    }
    if view.layout == ListLayout && forall v :: v in view.bindings ==> v.at.AtIndex? && v.target.Some? {
      ListApart(view.bindings);
    }
  }

  lemma ClashListed(bindings: seq<ViewBinding>)
    requires forall v :: v in bindings ==> v.at.AtKey? && v.target.Some?
    ensures forall e :: KeyClash(MapItems(bindings), e) ==>
      (e == Duplicate && ListsTwice(bindings, true)) || (e == Collision && ListsTwice(bindings, false))
  {
    var items := MapItems(bindings);
    forall e | KeyClash(items, e)
      ensures (e == Duplicate && ListsTwice(bindings, true)) || (e == Collision && ListsTwice(bindings, false))
    {
      var i, j :| 0 <= i < j < |items|
        && Clash(AtKey(items[i].key), items[i].name, AtKey(items[j].key), items[j].name, e);
      assert bindings[i] in bindings && bindings[j] in bindings && bindings[i].at == bindings[j].at;
    }
  }

  method CommitMap(u: NodeEdit, bindings: seq<ViewBinding>) returns (r: Result<Ref, Error>)
    requires u.Valid() && forall v :: v in bindings ==> v.at.AtKey? && v.target.Some?
    modifies u.builder
    ensures u.Valid() && u.Avail() >= old(u.Avail())
    ensures if Distinct(MapItems(bindings), KeyOf())
      then r == Ok(MapRoot(u.b, ToMap(MapItems(bindings)))) && r.value in u.Avail()
      else r.Err? && KeyClash(MapItems(bindings), r.error)
  {
    hide NodeEdit.Valid, MapNode, Distinct, OnPath, ToMap, MapItems, Sorted;
    var items := Sort(MapItems(bindings), KeyLess());
    KeyOrder();
    SortSorts(MapItems(bindings), KeyLess());
    var keys := CheckKeys(items);
    SortedBatch(MapItems(bindings), items);
    if keys.Err? {
      ClashAnyOrder(MapItems(bindings), items, keys.error);
      return Err(keys.error);
    }
    RootItems(u.b, items);
    var ref := EditMap(u, items, [], 0);
    return Ok(ref);
  }

  // Two bindings of one key clash in any order of the batch.
  lemma ClashAnyOrder(x: seq<Binding>, y: seq<Binding>, e: Error)
    requires multiset(x) == multiset(y) && KeyClash(y, e)
    ensures KeyClash(x, e)
  {
    var i, j :| 0 <= i < j < |y| && Clash(AtKey(y[i].key), y[i].name, AtKey(y[j].key), y[j].name, e);
    assert y == y[..j] + [y[j]] + y[j + 1..];
    assert y[..j][i] == y[i];
    assert multiset{y[i], y[j]} <= multiset(y);
    var p, q := TwoPlaces(x, y[i], y[j]);
  }

  lemma {:induction false} TwoPlaces<T>(x: seq<T>, a: T, c: T) returns (p: nat, q: nat)
    requires multiset{a, c} <= multiset(x)
    ensures p < q < |x| && ((x[p] == a && x[q] == c) || (x[p] == c && x[q] == a))
  {
    var n := |x| - 1;
    assert multiset(x)[a] >= multiset{a, c}[a] > 0;
    assert a in x;
    assert x == x[..n] + [x[n]];
    if x[n] == a || x[n] == c {
      var other := if x[n] == a then c else a;
      assert multiset{a, c} == multiset{x[n], other};
      assert multiset(x)[other] >= multiset{x[n], other}[other];
      assert other in multiset(x[..n]);
      p :| 0 <= p < n && x[..n][p] == other;
      q := n;
    } else {
      assert multiset{a, c} <= multiset(x[..n]);
      p, q := TwoPlaces(x[..n], a, c);
    }
  }

  method CommitList(u: NodeEdit, bindings: seq<ViewBinding>, payload: Option<Target>) returns (r: Result<Ref, Error>)
    requires u.Valid() && |bindings| < TWO64
    requires forall v :: v in bindings ==> v.at.AtIndex? && v.target.Some?
    modifies u.builder
    ensures u.Valid() && u.Avail() >= old(u.Avail())
    ensures r.Ok? ==> r.value in u.Avail()
    ensures r.Ok? ==> exists items :: (
      ListOf(bindings, items) && |items| < TWO64 && r.value == ListRoot(u.b, items, payload))
    ensures r.Err? ==> r.error == OutOfRange && !exists items :: ListOf(bindings, items)
  {
    hide NodeEdit.Valid, ListNode, HeightOf, Position.Fits, ListOf;
    var list := ListTargets(bindings);
    if list.Err? {
      return Err(list.error);
    }
    ListLength(bindings, list.value);
    var p := RootPosition(|list.value|, u.b);
    RootPositionIsLeast(|list.value|, u.b);
    var ref := u.BuildList(list.value, p, Root(payload));
    return Ok(ref);
  }

  lemma ListLength(bindings: seq<ViewBinding>, items: seq<Target>)
    requires ListOf(bindings, items)
    ensures |items| == |bindings|
  {
  }

  lemma RootItems(b: Radix, items: seq<Binding>)
    ensures forall item :: item in items ==> OnPath(b, item.key, [])
    ensures DepthOk(b, 0)
  {
  }

  lemma SortedBatch(x: seq<Binding>, y: seq<Binding>)
    requires multiset(x) == multiset(y)
    ensures Distinct(x, KeyOf()) <==> Distinct(y, KeyOf())
    ensures Distinct(x, KeyOf()) ==> ToMap(x) == ToMap(y)
  {
    if Distinct(x, KeyOf()) {
      PermutedDistinct(x, y, KeyOf());
      forall k | k in ToMap(x)
        ensures Binding(k, ToMap(x)[k].name, ToMap(x)[k].target) in x
      {
        ToMapBound(x, k);
      }
      forall item | item in x
        ensures item.Entry() == ToMap(x)[item.key]
      {
        ToMapGets(x, item);
      }
      SameBatch(x, y, ToMap(x));
    } else if Distinct(y, KeyOf()) {
      PermutedDistinct(y, x, KeyOf());
    }
  }
}
