// Bounded reconstruction of the logical view of an untrusted committed tree.
module Snapshot {
  import opened Words
  import opened Geometry
  import opened Nodes
  import opened Bits
  import opened Coordinates
  import opened ListTree
  import opened MapTree
  import opened MapBuild
  import opened MapUpdate
  import opened SequenceUpdate
  import opened Engine
  import opened MapSnapshot
  import opened ListSnapshot
  import opened Grouping
  import opened Sorting
  import opened Evidence

  lemma {:induction false} ViewPrefix(derive: Deriver, cells: seq<Cell>, i: nat)
    requires i <= |cells|
    ensures |CellsView(derive, cells[..i])| <= |CellsView(derive, cells)|
    decreases |cells| - i
  {
    if i < |cells| {
      assert cells[..i + 1][..i] == cells[..i];
      ViewPrefix(derive, cells, i + 1);
    } else {
      assert cells[..i] == cells;
    }
  }

  lemma ViewStart(derive: Deriver, cells: seq<Cell>)
    ensures CellsView(derive, cells[..0]) == [] && cells[..|cells|] == cells
  {
  }

  lemma ViewNext(derive: Deriver, cells: seq<Cell>, i: nat)
    requires i < |cells|
    ensures CellsView(derive, cells[..i + 1]) == CellsView(derive, cells[..i]) + CellView(derive, cells[i])
  {
    assert cells[..i + 1][..i] == cells[..i];
  }

  ghost predicate SlotFine(b: Radix, derive: Deriver, source: set<Ref>, cell: Cell, path: seq<nat>) {
    CellAccepts(b, derive, cell, path) && (cell.Child? ==> Complete(source, cell.ref))
  }

  ghost predicate NodeFine(b: Radix, derive: Deriver, source: set<Ref>, node: Ref, path: seq<nat>) {
    MapAccepts(b, derive, node, path) && Complete(source, node)
  }

  lemma FineIff(b: Radix, derive: Deriver, source: set<Ref>, node: Ref, path: seq<nat>)
    ensures NodeFine(b, derive, source, node, path) <==>
      (|path| < KEY_BITS && node in source && |node.cells| == Slots(b)
       && forall k :: 0 <= k < |node.cells| ==> SlotFine(b, derive, source, node.cells[k], path + [k]))
  {
  }

  // Keys below a slot lie below its node, and their digit there is the slot.
  lemma BelowPath(b: Radix, path: seq<nat>, slot: nat)
    ensures forall k :: OnPath(b, k, path + [slot]) <==> OnPath(b, k, path) && Digit(b, k, |path|) == slot
  {
    var below := path + [slot];
    forall k: Key
      ensures OnPath(b, k, below) <==> OnPath(b, k, path) && Digit(b, k, |path|) == slot
    {
      assert below[|path|] == slot && forall d :: 0 <= d < |path| ==> below[d] == path[d];
    }
  }

  // No key of a set belongs under a path.
  ghost predicate NoneUnder(b: Radix, keys: set<Key>, path: seq<nat>) {
    forall k :: k in keys ==> !OnPath(b, k, path)
  }

  // Keys found in a walk under a path, and those found under its first slots.
  ghost predicate SeenUnder(b: Radix, was: set<Key>, now: set<Key>, path: seq<nat>) {
    was <= now && forall k :: k in now && k !in was ==> OnPath(b, k, path)
  }

  ghost predicate SeenBelow(b: Radix, was: set<Key>, now: set<Key>, path: seq<nat>, slot: nat) {
    SeenUnder(b, was, now, path) && forall k :: k in now && k !in was ==> Digit(b, k, |path|) < slot
  }

  lemma SeenStart(b: Radix, was: set<Key>, path: seq<nat>)
    ensures SeenBelow(b, was, was, path, 0)
    ensures forall now, slot :: SeenBelow(b, was, now, path, slot) ==> SeenUnder(b, was, now, path)
  {
  }

  lemma SlotOutside(b: Radix, was: set<Key>, now: set<Key>, path: seq<nat>, slot: nat)
    requires NoneUnder(b, was, path) && SeenBelow(b, was, now, path, slot)
    ensures NoneUnder(b, now, path + [slot])
  {
    hide Digit, OnPath;
    BelowPath(b, path, slot);
  }

  lemma SeenNext(b: Radix, was: set<Key>, mid: set<Key>, now: set<Key>, path: seq<nat>, slot: nat)
    requires SeenBelow(b, was, mid, path, slot) && SeenUnder(b, mid, now, path + [slot])
    ensures SeenBelow(b, was, now, path, slot + 1)
  {
    hide Digit, OnPath;
    BelowPath(b, path, slot);
  }

  class Walk {
    const derive: Deriver
    const max: U64
    const work: ProofWork
    var bindings: seq<ViewBinding>
    var seen: map<Key, Label>

    constructor (vc: Scheme, b: Radix, derive: Deriver, source: set<Ref>, max: U64)
      requires vc.Opens()
      ensures this.derive == derive && this.max == max && bindings == [] && seen == map[]
      ensures fresh(work) && work.Valid() && work.b == b && work.source == source
    {
      this.derive := derive;
      this.max := max;
      this.work := new ProofWork(vc, b, source);
      bindings := [];
      seen := map[];
    }

    // A leaf belongs under every digit of the path it was found at.
    method CheckRoute(key: Key, path: seq<nat>) returns (ok: bool)
      ensures ok <==> RouteOk(work.b, key, path)
    {
      for level := 0 to |path|
        invariant forall d :: 0 <= d < level ==> DepthOk(work.b, d) && Digit(work.b, key, d) == path[d]
      {
        var got := ComputeDigit(work.b, key, level);
        if got != Ok(path[level]) {
          return false;
        }
      }
      return true;
    }

    // No key found so far lies below this path.
    ghost predicate Outside(path: seq<nat>)
      reads this, work
    {
      NoneUnder(work.b, seen.Keys, path)
    }

    method WalkMap(node: Ref, path: seq<nat>) returns (r: Result<(), Error>)
      requires work.Valid() && node.layout == MapLayout && Outside(path)
      requires |bindings| <= max
      modifies this, work
      ensures work.Valid()
      ensures r.Ok? <==> (NodeFine(work.b, derive, work.source, node, path)
                          && |old(bindings)| + |CellsView(derive, node.cells)| <= max)
      ensures r == Err(Incomplete) ==> !Loadable(work.b, work.source, node)
      ensures r.Ok? ==> bindings == old(bindings) + CellsView(derive, node.cells)
      ensures r.Ok? ==> SeenUnder(work.b, old(seen.Keys), seen.Keys, path)
      decreases node
    {
      hide NodeFine, SlotFine, CellsView, CellView, ProofWork.Valid, NoneUnder, SeenBelow, SeenUnder;
      SeenStart(work.b, seen.Keys, path);
      ViewStart(derive, node.cells);
      FineIff(work.b, derive, work.source, node, path);
      if |path| >= KEY_BITS {
        return Err(BadNode);
      }
      var loaded := work.Load(node);
      if loaded.Err? {
        return Err(loaded.error);
      }
      var opened_ := work.Open(node, 0);
      var cells := loaded.value;
      for slot := 0 to |cells|
        invariant work.Valid()
        invariant forall k :: 0 <= k < slot ==> SlotFine(work.b, derive, work.source, cells[k], path + [k])
        invariant bindings == old(bindings) + CellsView(derive, cells[..slot]) && |bindings| <= max
        invariant SeenBelow(work.b, old(seen.Keys), seen.Keys, path, slot)
      {
        ViewNext(derive, cells, slot);
        SlotOutside(work.b, old(seen.Keys), seen.Keys, path, slot);
        ghost var before := seen.Keys;
        var found := WalkCell(cells[slot], path, slot);
        if found.Err? {
          ViewPrefix(derive, cells, slot + 1);
          return Err(found.error);
        }
        SeenNext(work.b, old(seen.Keys), before, seen.Keys, path, slot);
      }
      return Ok(());
    }

    method WalkCell(cell: Cell, path: seq<nat>, slot: nat) returns (r: Result<(), Error>)
      requires work.Valid() && |path| < KEY_BITS && Outside(path + [slot])
      requires |bindings| <= max
      modifies this, work
      ensures work.Valid()
      ensures r.Ok? <==> (SlotFine(work.b, derive, work.source, cell, path + [slot])
                          && |old(bindings)| + |CellView(derive, cell)| <= max)
      ensures r == Err(Incomplete) ==> cell.Child? && !Loadable(work.b, work.source, cell.ref)
      ensures r.Ok? ==> bindings == old(bindings) + CellView(derive, cell)
      ensures r.Ok? ==> SeenUnder(work.b, old(seen.Keys), seen.Keys, path + [slot])
      decreases cell
    {
      if cell == Blank {
        return Ok(());
      }
      if Tag(cell) == MAP_LEAF {
        var leaf := ParseMap(cell);
        if leaf.Err? {
          return Err(leaf.error);
        }
        var (name, target) := leaf.value;
        var at := LabelCoordinate(derive, MapLayout, name);
        if at.Err? {
          return Err(at.error);
        }
        var key := at.value.key;
        if key in seen && seen[key] != name {
          return Err(Collision);
        }
        var ok := CheckRoute(key, path + [slot]);
        if !ok {
          return Err(BadNode);
        }
        if key in seen {
          return Err(Duplicate);
        }
        if |bindings| >= max {
          return Err(OutOfRange);
        }
        seen := seen[key := name];
        bindings := bindings + [ViewBinding(at.value, name, Some(target))];
        return Ok(());
      }
      if !cell.Child? || cell.ref.layout != MapLayout {
        return Err(BadNode);
      }
      var before := |bindings|;
      r := WalkMap(cell.ref, path + [slot]);
      if r.Ok? && |bindings| - before < 2 {
        return Err(BadNode);
      }
    }

    // Positions come from the authenticated parent context.
    method WalkList(node: Ref, depth: nat, p: Position) returns (r: Result<(), Error>)
      requires work.Valid() && p.Fits(work.b) && node.layout == ListLayout
      requires depth + p.height < KEY_BITS
      requires p.root ==> |node.cells| > 0 ==> node.cells[0].Meta? && node.cells[0].count == p.count
      modifies this`bindings, work
      ensures work.Valid()
      ensures r.Ok? <==> ListFine(work.b, work.source, node, p)
      ensures r == Err(Incomplete) ==> !Loadable(work.b, work.source, node)
      ensures r.Ok? ==> bindings == old(bindings) + IndexedFrom(|old(bindings)|, CellsTargets(node.cells))
      decreases p.height, 1
    {
      hide ListFine, ListSlotFine, ShapeOk, Position.Used, Position.Fits, Position.Child, CellsTargets, CellTargets,
        IndexedFrom, ProofWork.Valid;
      ListFineIff(work.b, work.source, node, p);
      var loaded := work.Load(node);
      if loaded.Err? {
        return Err(loaded.error);
      }
      var opened_ := work.Open(node, 0);
      var cells := loaded.value;
      var ok := CheckPosition(cells, p, work.b);
      if !ok {
        return Err(BadNode);
      }
      ShapePadding(cells, p, work.b);
      RootTargets(cells, p);
      IndexedNone(|bindings|);
      var before := |bindings|;
      for slot := p.Base() to |cells|
        invariant work.Valid()
        invariant forall k :: p.Base() <= k < slot && k - p.Base() < p.Used(work.b) ==>
          ListSlotFine(work.b, work.source, cells[k], p, k - p.Base())
        invariant bindings == old(bindings) + IndexedFrom(|old(bindings)|, CellsTargets(cells[..slot]))
      {
        TargetsNext(cells, slot);
        IndexedGrow(old(bindings), bindings, CellsTargets(cells[..slot]), CellTargets(cells[slot]));
        if slot - p.Base() >= p.Used(work.b) {
          BlankTargets(|bindings|);
          continue;
        }
        var found := WalkItem(cells[slot], depth, p, slot - p.Base());
        if found.Err? {
          return Err(found.error);
        }
      }
      TargetsAll(cells);
      FineCount(work.b, work.source, node, p);
      return if |bindings| - before != p.count then Err(BadNode) else Ok(());
    }

    method WalkItem(cell: Cell, depth: nat, p: Position, digit: nat) returns (r: Result<(), Error>)
      requires work.Valid() && p.Fits(work.b) && digit < p.Used(work.b)
      requires depth + p.height < KEY_BITS
      modifies this`bindings, work
      ensures work.Valid()
      ensures r.Ok? <==> ListSlotFine(work.b, work.source, cell, p, digit)
      ensures r == Err(Incomplete) ==> cell.Child? && !Loadable(work.b, work.source, cell.ref)
      ensures r.Ok? ==> bindings == old(bindings) + IndexedFrom(|old(bindings)|, CellTargets(cell))
      decreases p.height, 0
    {
      hide ShapeOk, Position.Used, Position.Fits, Position.Child, ListAccepts;
      if p.height == 0 {
        var target := ParseList(cell);
        if target.Err? {
          return Err(target.error);
        }
        var index := |bindings| % TWO64;
        bindings := bindings + [ViewBinding(AtIndex(index), EncodeIndex(index), Some(target.value))];
        return Ok(());
      }
      if !cell.Child? || cell.ref.layout != ListLayout {
        return Err(BadNode);
      }
      ChildExact(p, digit, work.b);
      r := WalkList(cell.ref, depth + 1, p.Child(digit, work.b).0);
    }
  }

  // The view of consecutive list positions, each with its canonical index label.
  function IndexedFrom(start: nat, targets: seq<Target>): (vs: seq<ViewBinding>)
    ensures |vs| == |targets|
    ensures forall i :: 0 <= i < |vs| ==> vs[i] == IndexItem(start + i, targets[i])
  {
    seq(|targets|, i requires 0 <= i < |targets| => IndexItem(start + i, targets[i]))
  }

  function IndexItem(i: nat, target: Target): ViewBinding {
    ViewBinding(AtIndex(i % TWO64), EncodeIndex(i % TWO64), Some(target))
  }

  lemma IndexedNone(start: nat)
    ensures IndexedFrom(start, []) == []
  {
  }

  lemma IndexedGrow(old0: seq<ViewBinding>, now: seq<ViewBinding>, xs: seq<Target>, ys: seq<Target>)
    requires now == old0 + IndexedFrom(|old0|, xs)
    ensures now + IndexedFrom(|now|, ys) == old0 + IndexedFrom(|old0|, xs + ys)
  {
    assert IndexedFrom(|old0|, xs + ys) == IndexedFrom(|old0|, xs) + IndexedFrom(|old0| + |xs|, ys);
  }

  lemma BlankTargets(start: nat)
    ensures CellTargets(Blank) == [] && IndexedFrom(start, []) == []
  {
  }

  ghost predicate ListFine(b: Radix, source: set<Ref>, node: Ref, p: Position) {
    ListAccepts(b, node, p) && Complete(source, node)
  }

  ghost predicate ListSlotFine(b: Radix, source: set<Ref>, cell: Cell, p: Position, digit: nat) {
    SlotAccepts(b, cell, p, digit) && (cell.Child? ==> Complete(source, cell.ref))
  }

  // The count of targets is the count of the position.
  lemma FineCount(b: Radix, source: set<Ref>, node: Ref, p: Position)
    requires p.Fits(b) && node.layout == ListLayout
    requires p.root ==> |node.cells| > 0 ==> node.cells[0].Meta? && node.cells[0].count == p.count
    ensures ListFine(b, source, node, p) ==> |CellsTargets(node.cells)| == p.count
  {
    if ListFine(b, source, node, p) {
      AcceptedList(b, node, p, if p.root then Root(node.cells[0].payload) else Inner);
    }
  }

  lemma ListFineIff(b: Radix, source: set<Ref>, node: Ref, p: Position)
    requires p.root ==> |node.cells| > 0 ==> node.cells[0].Meta?
    ensures ListFine(b, source, node, p) ==> |node.cells| == Slots(b)
    ensures ListFine(b, source, node, p) <==>
      (node in source && ShapeOk(node.cells, p, b)
       && forall k :: p.Base() <= k < |node.cells| && k - p.Base() < p.Used(b) ==>
            ListSlotFine(b, source, node.cells[k], p, k - p.Base()))
  {
    if node in source && ShapeOk(node.cells, p, b)
      && forall k :: p.Base() <= k < |node.cells| && k - p.Base() < p.Used(b) ==>
            ListSlotFine(b, source, node.cells[k], p, k - p.Base())
    {
      forall cell | cell in node.cells && cell.Child?
        ensures Complete(source, cell.ref)
      {
        var k :| 0 <= k < |node.cells| && node.cells[k] == cell;
        assert ListSlotFine(b, source, node.cells[k], p, k - p.Base());
      }
      forall slot | p.Base() <= slot < p.Base() + p.Used(b)
        ensures SlotAccepts(b, node.cells[slot], p, slot - p.Base())
      {
        assert ListSlotFine(b, source, node.cells[slot], p, slot - p.Base());
      }
    }
  }

  // The view an accepted root denotes.
  ghost predicate Reads(b: Radix, derive: Deriver, root: Ref, view: View) {
    && view.layout == root.layout
    && (if root.layout == MapLayout then ReadsMap(b, derive, root, view) else ReadsList(b, root, view))
  }

  ghost predicate ReadsMap(b: Radix, derive: Deriver, root: Ref, view: View) {
    MapAccepts(b, derive, root, []) && view.payload == None && view.bindings == CellsView(derive, root.cells)
  }

  ghost predicate ReadsList(b: Radix, root: Ref, view: View) {
    && |root.cells| > 0 && root.cells[0].Meta?
    && ListAccepts(b, root, RootPos(root.cells[0].count, b))
    && view.payload == root.cells[0].payload
    && view.bindings == IndexedFrom(0, CellsTargets(root.cells))
  }

  lemma ReadsWidth(b: Radix, root: Ref, p: Position)
    ensures ListAccepts(b, root, p) ==> |root.cells| == Slots(b)
  {
  }

  // Reconstructs the view of a root, expanding at most `max` bindings. It
  // succeeds exactly on accepted trees that are fully available and in bounds.
  method SnapshotBounded(vc: Scheme, b: Radix, derive: Deriver, source: set<Ref>, root: Ref, max: U64)
    returns (r: Result<View, Error>)
    requires vc.Opens()
    ensures r.Ok? ==> Reads(b, derive, root, r.value) && Complete(source, root) && |r.value.bindings| <= max
    ensures r.Err? ==> forall view :: Reads(b, derive, root, view) && Complete(source, root) ==> |view.bindings| > max
    ensures r == Err(Incomplete) ==> !Loadable(b, source, root)
  {
    hide ListAccepts, MapAccepts, CellsTargets, CellsView, HeightOf, Position.Fits;
    var walk := new Walk(vc, b, derive, source, max);
    if root.layout == MapLayout {
      var ok := walk.WalkMap(root, []);
      return if ok.Err? then Err(ok.error) else Ok(View(MapLayout, walk.bindings, None));
    }
    var loaded := walk.work.Load(root);
    if loaded.Err? {
      if |root.cells| > 0 && root.cells[0].Meta? {
        ReadsWidth(b, root, RootPos(root.cells[0].count, b));
      }
      return Err(loaded.error);
    }
    var meta := ParseMetadata(loaded.value[0]);
    if meta.Err? {
      return Err(meta.error);
    }
    var p := RootPosition(meta.value.count, b);
    RootPositionIsLeast(meta.value.count, b);
    RootHeightBound(meta.value.count, b);
    ReadsCount(b, derive, root, p);
    if meta.value.count > max {
      return Err(OutOfRange);
    }
    var ok := walk.WalkList(root, 0, p);
    return if ok.Err? then Err(ok.error) else Ok(View(ListLayout, walk.bindings, meta.value.payload));
  }

  lemma ReadsCount(b: Radix, derive: Deriver, root: Ref, p: Position)
    requires root.layout == ListLayout && |root.cells| > 0 && root.cells[0].Meta?
    requires p == RootPos(root.cells[0].count, b) && p.Fits(b)
    ensures ListAccepts(b, root, p) ==> |CellsTargets(root.cells)| == p.count
  {
    if ListAccepts(b, root, p) {
      AcceptedList(b, root, p, Root(root.cells[0].payload));
    }
  }

  // ---- Snapshot and Commit undo each other ----

  // Whatever root a snapshot accepts, committing its view gives back that root:
  // only canonical trees are accepted.
  lemma OnlyCanonical(b: Radix, derive: Deriver, root: Ref, view: View)
    requires Reads(b, derive, root, view)
    requires root.layout == ListLayout ==> IndexLabels(derive)
    ensures Constructs(b, derive, view, root)
  {
    if root.layout == MapLayout {
      var m := AcceptedCanonical(b, derive, root, []);
      ViewConstructs(b, derive, view.bindings, m);
    } else {
      hide ListNode, HeightOf, CellsTargets, ListAccepts, EncodeIndex, Position.Fits, ListOf;
      var count, items := root.cells[0].count, CellsTargets(root.cells);
      RootPositionIsLeast(count, b);
      AcceptedList(b, root, RootPos(count, b), Root(root.cells[0].payload));
      IndexedIsList(view.bindings, items);
      IndexedGood(derive, view.bindings, items);
    }
  }

  lemma ViewConstructs(b: Radix, derive: Deriver, vs: seq<ViewBinding>, m: map<Key, Entry>)
    requires IsView(vs, m) && Derived(derive, m)
    ensures Constructs(b, derive, View(MapLayout, vs, None), MapRoot(b, m))
  {
    hide ToMap, MapRoot;
    var view := View(MapLayout, vs, None);
    forall v | v in vs
      ensures BindingFault(derive, MapLayout, v) == None && v.at.AtKey? && v.target.Some?
    {
      assert v == ViewItem(v.at.key, m[v.at.key]);
    }
    ViewItems(vs, m);
  }

  lemma ViewItems(vs: seq<ViewBinding>, m: map<Key, Entry>)
    requires IsView(vs, m) && forall v :: v in vs ==> v.at.AtKey? && v.target.Some?
    ensures Distinct(MapItems(vs), KeyOf()) && ToMap(MapItems(vs)) == m
  {
    hide ToMap;
    var items := MapItems(vs);
    forall i, j | 0 <= i < j < |items|
      ensures KeyOf()(items[i]) != KeyOf()(items[j])
    {
      LessTotal(vs[i].at.key, vs[i].at.key);
      assert Less(vs[i].at.key, vs[j].at.key);
    }
    forall k | k in m
      ensures Binding(k, m[k].name, m[k].target) in items
    {
      var i :| 0 <= i < |vs| && vs[i] == ViewItem(k, m[k]);
      assert items[i] == Binding(k, m[k].name, m[k].target);
    }
    forall item | item in items
      ensures item.key in m && item.Entry() == m[item.key]
    {
      var i :| 0 <= i < |items| && items[i] == item;
      assert vs[i] in vs;
    }
    SameBatch(items, items, m);
  }

  lemma IndexedIsList(vs: seq<ViewBinding>, items: seq<Target>)
    requires vs == IndexedFrom(0, items) && |items| < TWO64
    ensures ListOf(vs, items) && Distinct(vs, BindingAt())
  {
    hide EncodeIndex;
    forall i | 0 <= i < |vs|
      ensures vs[i].at == AtIndex(i) && vs[i].target == Some(items[i])
    {
      assert vs[i] == IndexItem(0 + i, items[i]);
      assert i % TWO64 == i;
    }
    forall i, j | 0 <= i < j < |vs|
      ensures BindingAt()(vs[i]) != BindingAt()(vs[j])
    {
    }
  }

  lemma IndexedGood(derive: Deriver, vs: seq<ViewBinding>, items: seq<Target>)
    requires vs == IndexedFrom(0, items) && IndexLabels(derive)
    ensures forall v :: v in vs ==> BindingFault(derive, ListLayout, v) == None
  {
    hide EncodeIndex;
    forall v | v in vs
      ensures BindingFault(derive, ListLayout, v) == None
    {
      var i :| 0 <= i < |vs| && vs[i] == v;
      assert v == IndexItem(0 + i, items[i]);
    }
  }

  // Batches at distinct coordinates with the same members are permutations.
  lemma SameMembers(xs: seq<ViewBinding>, ys: seq<ViewBinding>)
    requires Distinct(xs, BindingAt()) && Distinct(ys, BindingAt())
    requires forall v :: v in xs <==> v in ys
    ensures multiset(xs) == multiset(ys)
  {
    forall v
      ensures multiset(xs)[v] == multiset(ys)[v]
    {
      OnceOnly(xs, v, BindingAt());
      OnceOnly(ys, v, BindingAt());
      assert v in multiset(xs) <==> v in xs;
      assert v in multiset(ys) <==> v in ys;
    }
  }

  ghost predicate InIndexOrder(vs: seq<ViewBinding>) {
    forall i :: 0 <= i < |vs| ==> i < TWO64 && vs[i].at == AtIndex(i)
  }

  // Whatever root a commit of a view gives is accepted, and its snapshot is that
  // view again, its bindings in coordinate order.
  lemma CommitIsRead(b: Radix, derive: Deriver, view: View, root: Ref) returns (read: View)
    requires Constructs(b, derive, view, root)
    requires view.layout == ListLayout ==> OnlyIndexLabels(derive)
    ensures Reads(b, derive, root, read) && read.payload == view.payload
    ensures multiset(read.bindings) == multiset(view.bindings)
    ensures if view.layout == MapLayout then Ascending(read.bindings)
      else InIndexOrder(read.bindings)
  {
    hide Reads, Constructs, Ascending, InIndexOrder, OnlyIndexLabels;
    if view.layout == MapLayout {
      read := MapIsRead(b, derive, view, root);
    } else {
      read := ListIsRead(b, derive, view, root);
    }
  }

  lemma MapIsRead(b: Radix, derive: Deriver, view: View, root: Ref) returns (read: View)
    requires Constructs(b, derive, view, root) && view.layout == MapLayout
    ensures Reads(b, derive, root, read) && read.payload == view.payload
    ensures multiset(read.bindings) == multiset(view.bindings) && Ascending(read.bindings)
  {
    hide ToMap, MapNode, CellsView, MapAccepts, GoodBindings, DepthOk, IsView, MapItems, Distinct;
    var m := ToMap(MapItems(view.bindings));
    GoodKinds(derive, view);
    MapMembers(derive, view.bindings);
    RootItems(b, []);
    CommitAccepted(b, derive, m, []);
    MapMeta(b, m, 0);
    read := View(MapLayout, CellsView(derive, root.cells), None);
    ViewMembers(read.bindings, m);
    SameMembers(read.bindings, view.bindings);
  }

  // The members of a proper Map view are the bindings it stands for.
  lemma MapMembers(derive: Deriver, bindings: seq<ViewBinding>)
    requires forall v :: v in bindings ==> v.at.AtKey? && v.target.Some? && derive(v.name) == Some(v.at)
    requires Distinct(MapItems(bindings), KeyOf())
    ensures Derived(derive, ToMap(MapItems(bindings))) && Distinct(bindings, BindingAt())
    ensures forall v :: v in bindings <==> IsItem(v, ToMap(MapItems(bindings)))
  {
    hide ToMap;
    var items, m := MapItems(bindings), ToMap(MapItems(bindings));
    forall k | k in m
      ensures derive(m[k].name) == Some(AtKey(k)) && ViewItem(k, m[k]) in bindings
    {
      ItemOf(bindings, k);
    }
    forall i | 0 <= i < |bindings|
      ensures IsItem(bindings[i], m)
    {
      ToMapGets(items, items[i]);
    }
    forall i, j | 0 <= i < j < |bindings|
      ensures BindingAt()(bindings[i]) != BindingAt()(bindings[j])
    {
      assert KeyOf()(items[i]) != KeyOf()(items[j]);
    }
  }

  lemma ItemOf(bindings: seq<ViewBinding>, k: Key)
    requires forall v :: v in bindings ==> v.at.AtKey? && v.target.Some?
    requires k in ToMap(MapItems(bindings))
    ensures ViewItem(k, ToMap(MapItems(bindings))[k]) in bindings
  {
    hide ToMap;
    var items := MapItems(bindings);
    ToMapBound(items, k);
    var i :| 0 <= i < |items| && items[i].key == k && items[i].Entry() == ToMap(items)[k];
    assert bindings[i] == ViewItem(k, ToMap(items)[k]);
  }

  ghost predicate IsItem(v: ViewBinding, m: map<Key, Entry>) {
    v.at.AtKey? && v.at.key in m && v == ViewItem(v.at.key, m[v.at.key])
  }

  lemma ViewMembers(vs: seq<ViewBinding>, m: map<Key, Entry>)
    requires IsView(vs, m)
    ensures Distinct(vs, BindingAt()) && Ascending(vs)
    ensures forall v :: v in vs <==> IsItem(v, m)
  {
    forall i, j | 0 <= i < j < |vs|
      ensures BindingAt()(vs[i]) != BindingAt()(vs[j])
    {
      LessTotal(vs[i].at.key, vs[i].at.key);
    }
  }

  lemma ListIsRead(b: Radix, derive: Deriver, view: View, root: Ref) returns (read: View)
    requires Constructs(b, derive, view, root) && view.layout == ListLayout && OnlyIndexLabels(derive)
    ensures Reads(b, derive, root, read) && read.payload == view.payload
    ensures multiset(read.bindings) == multiset(view.bindings)
    ensures InIndexOrder(read.bindings)
  {
    hide ListNode, HeightOf, CellsTargets, ListAccepts, EncodeIndex, Position.Fits, ShapeOk, ListOf, GoodBindings;
    var items :| ListOf(view.bindings, items) && |items| < TWO64 && root == ListRoot(b, items, view.payload);
    GoodKinds(derive, view);
    CanonicalRoot(b, items, view.payload);
    ListAccepted(b, items, RootPos(|items|, b), Root(view.payload));
    read := View(ListLayout, IndexedFrom(0, items), view.payload);
    IndexedMembers(derive, view.bindings, items, read.bindings);
  }

  lemma IndexedMembers(derive: Deriver, bindings: seq<ViewBinding>, items: seq<Target>, vs: seq<ViewBinding>)
    requires ListOf(bindings, items) && |items| < TWO64 && vs == IndexedFrom(0, items) && OnlyIndexLabels(derive)
    requires forall v :: v in bindings ==> v.target.Some? && derive(v.name) == Some(v.at)
    ensures multiset(vs) == multiset(bindings) && InIndexOrder(vs)
  {
    hide EncodeIndex, ListOf, Distinct, OnlyIndexLabels;
    IndexedIsList(vs, items);
    IndexedItems(vs, items);
    ListDistinct(bindings, items);
    forall v
      ensures v in bindings <==> v in vs
    {
      DenseMember(derive, bindings, items, v);
    }
    SameMembers(vs, bindings);
  }

  lemma ListDistinct(bindings: seq<ViewBinding>, items: seq<Target>)
    requires ListOf(bindings, items)
    ensures Distinct(bindings, BindingAt())
  {
  }

  ghost predicate IsIndexed(v: ViewBinding, items: seq<Target>) {
    v.at.AtIndex? && v.at.index < |items| && v == ViewBinding(v.at, EncodeIndex(v.at.index), Some(items[v.at.index]))
  }

  lemma IndexedItems(vs: seq<ViewBinding>, items: seq<Target>)
    requires vs == IndexedFrom(0, items) && |items| < TWO64
    ensures InIndexOrder(vs)
    ensures forall v :: v in vs <==> IsIndexed(v, items)
  {
    hide EncodeIndex;
    forall i | 0 <= i < |items|
      ensures vs[i] == ViewBinding(AtIndex(i), EncodeIndex(i), Some(items[i]))
    {
      assert vs[i] == IndexItem(0 + i, items[i]);
      assert i % TWO64 == i;
    }
    forall v | IsIndexed(v, items)
      ensures v in vs
    {
      assert v == vs[v.at.index];
    }
  }

  lemma DenseMember(derive: Deriver, bindings: seq<ViewBinding>, items: seq<Target>, v: ViewBinding)
    requires ListOf(bindings, items) && |items| < TWO64 && OnlyIndexLabels(derive)
    requires forall v :: v in bindings ==> v.target.Some? && derive(v.name) == Some(v.at)
    ensures v in bindings <==> IsIndexed(v, items)
  {
    hide EncodeIndex;
    if IsIndexed(v, items) {
      ListCovers(bindings, items);
      var w :| w in bindings && w.at == AtIndex(v.at.index);
      assert derive(w.name) == Some(AtIndex(v.at.index));
    }
    if v in bindings {
      assert derive(v.name) == Some(AtIndex(v.at.index));
    }
  }

  // A dense view has a binding at every index.
  lemma ListCovers(bindings: seq<ViewBinding>, items: seq<Target>)
    requires ListOf(bindings, items) && forall v :: v in bindings ==> v.target.Some?
    ensures forall i: U64 :: i < |items| ==> exists v :: v in bindings && v.at == AtIndex(i)
  {
    var list := ListItems(bindings);
    var sorted := Sort(list, IndexLess());
    SortSorts(list, IndexLess());
    SortMembers(list, IndexLess());
    ListIsDense(bindings, list, sorted, items);
    forall i: U64 | i < |items|
      ensures exists v :: v in bindings && v.at == AtIndex(i)
    {
      assert sorted[i] in list;
      var j :| 0 <= j < |list| && list[j] == sorted[i];
      assert bindings[j] in bindings && bindings[j].at == AtIndex(i);
    }
  }

  // ---- A root determines its contents ----

  // Two lists have the same canonical root exactly when they are the same list
  // with the same payload.
  lemma ListRootDetermines(b: Radix, x: seq<Target>, px: Option<Target>, y: seq<Target>, py: Option<Target>)
    requires |x| < TWO64 && |y| < TWO64
    ensures ListRoot(b, x, px) == ListRoot(b, y, py) <==> x == y && px == py
  {
    hide ListNode, HeightOf, CellsTargets, ListAccepts, Position.Fits;
    CanonicalRoot(b, x, px);
    CanonicalRoot(b, y, py);
    ListAccepted(b, x, RootPos(|x|, b), Root(px));
    ListAccepted(b, y, RootPos(|y|, b), Root(py));
  }

  // Two sets of bindings at their derived keys have the same canonical root
  // exactly when they are equal.
  lemma MapRootDetermines(b: Radix, derive: Deriver, x: map<Key, Entry>, y: map<Key, Entry>)
    requires Derived(derive, x) && Derived(derive, y)
    ensures MapRoot(b, x) == MapRoot(b, y) <==> x == y
  {
    hide MapNode, CellsView, MapAccepts, Derived;
    MapMeta(b, x, 0);
    CommitAccepted(b, derive, x, []);
    CommitAccepted(b, derive, y, []);
    if MapRoot(b, x) == MapRoot(b, y) {
      SameView(CellsView(derive, MapRoot(b, x).cells), x, y);
    }
  }

  lemma SameView(vs: seq<ViewBinding>, x: map<Key, Entry>, y: map<Key, Entry>)
    requires IsView(vs, x) && IsView(vs, y)
    ensures x == y
  {
    forall k
      ensures k in x <==> k in y
      ensures k in x && k in y ==> x[k] == y[k]
    {
      assert k in x ==> ViewItem(k, x[k]) in vs;
      assert k in y ==> ViewItem(k, y[k]) in vs;
    }
  }
}
