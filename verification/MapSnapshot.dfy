// Reading a Map tree back: which committed trees are accepted, and what they denote.
module MapSnapshot {
  import opened Words
  import opened Geometry
  import opened Nodes
  import opened Bits
  import opened Coordinates
  import opened MapTree
  import opened MapUpdate
  import opened Engine

  function ViewItem(k: Key, e: Entry): ViewBinding {
    ViewBinding(AtKey(k), e.name, Some(e.target))
  }

  // The leaves of a vector in slot order, each at the coordinate its label derives.
  function CellsView(derive: Deriver, cells: seq<Cell>): (vs: seq<ViewBinding>)
    decreases cells, 0
  {
    if cells == [] then [] else
      var n := |cells| - 1;
      CellsView(derive, cells[..n]) + CellView(derive, cells[n])
  }

  function CellView(derive: Deriver, cell: Cell): (vs: seq<ViewBinding>)
    decreases cell, 1
  {
    match cell
    case MapLeaf(name, target) =>
      var at := derive(name);
      if at.Some? then [ViewBinding(at.value, name, Some(target))] else []
    case Child(ref) => CellsView(derive, ref.cells)
    case _ => []
  }

  // Full width, every leaf on its own route, and no subtree that should have
  // been collapsed.
  ghost predicate MapAccepts(b: Radix, derive: Deriver, ref: Ref, path: seq<nat>)
    decreases ref, 0
  {
    && |path| < KEY_BITS && |ref.cells| == Slots(b)
    && forall slot :: 0 <= slot < |ref.cells| ==> CellAccepts(b, derive, ref.cells[slot], path + [slot])
  }

  ghost predicate CellAccepts(b: Radix, derive: Deriver, cell: Cell, path: seq<nat>)
    decreases cell, 1
  {
    match cell
    case Blank => true
    case MapLeaf(name, _) =>
      && derive(name).Some? && derive(name).value.AtKey?
      && RouteOk(b, derive(name).value.key, path)
    case Child(ref) =>
      && ref.layout == MapLayout && MapAccepts(b, derive, ref, path)
      && |CellsView(derive, ref.cells)| >= 2
    case _ => false
  }

  // Every digit of the route exists and is the key's own.
  ghost predicate RouteOk(b: Radix, k: Key, path: seq<nat>) {
    OnPath(b, k, path) && forall d :: 0 <= d < |path| ==> DepthOk(b, d)
  }

  // ---- A view denotes a set of bindings ----

  ghost predicate IsView(vs: seq<ViewBinding>, m: map<Key, Entry>) {
    && (forall v :: v in vs ==> v.at.AtKey? && v.at.key in m && v == ViewItem(v.at.key, m[v.at.key]))
    && (forall k :: k in m ==> ViewItem(k, m[k]) in vs)
    && Ascending(vs)
  }

  // Strictly ascending keys.
  ghost predicate Ascending(vs: seq<ViewBinding>) {
    forall i, j :: 0 <= i < j < |vs| ==> vs[i].at.AtKey? && vs[j].at.AtKey? && Less(vs[i].at.key, vs[j].at.key)
  }

  lemma ViewConcat(xs: seq<ViewBinding>, x: map<Key, Entry>, ys: seq<ViewBinding>, y: map<Key, Entry>)
    requires IsView(xs, x) && IsView(ys, y)
    requires forall j, k :: j in x && k in y ==> Less(j, k)
    ensures IsView(xs + ys, x + y)
  {
    forall k | k in x && k in y
      ensures false
    {
      LessTotal(k, k);
    }
    var vs := xs + ys;
    forall i, j | 0 <= i < j < |vs|
      ensures vs[i].at.AtKey? && vs[j].at.AtKey? && Less(vs[i].at.key, vs[j].at.key)
    {
      assert vs[i] in xs || vs[i] in ys;
      assert vs[j] in xs || vs[j] in ys;
      if i < |xs| <= j {
        assert vs[i] == xs[i] && vs[j] == ys[j - |xs|];
        assert xs[i] in xs && ys[j - |xs|] in ys;
      }
    }
  }

  lemma {:induction false} ViewUnique(xs: seq<ViewBinding>, ys: seq<ViewBinding>, m: map<Key, Entry>)
    requires IsView(xs, m) && IsView(ys, m)
    ensures xs == ys
  {
    forall v
      ensures v in xs <==> v in ys
    {
    }
    AscendingUnique(xs, ys);
  }

  // Two ascending batches with the same members are equal.
  lemma {:induction false} AscendingUnique(xs: seq<ViewBinding>, ys: seq<ViewBinding>)
    requires Ascending(xs) && Ascending(ys)
    requires forall v :: v in xs <==> v in ys
    requires forall v :: v in xs ==> v.at.AtKey?
    ensures xs == ys
    decreases |xs|
  {
    assert ys != [] ==> ys[0] in xs;
    if xs != [] {
      assert xs[0] in ys;
      SameFirst(xs, ys);
      forall v
        ensures v in xs[1..] <==> v in ys[1..]
      {
        RestMember(xs, v);
        RestMember(ys, v);
      }
      AscendingUnique(xs[1..], ys[1..]);
    }
  }

  lemma SameFirst(xs: seq<ViewBinding>, ys: seq<ViewBinding>)
    requires Ascending(xs) && Ascending(ys) && xs != [] && ys != []
    requires forall v :: v in xs <==> v in ys
    requires forall v :: v in xs ==> v.at.AtKey?
    ensures xs[0] == ys[0]
  {
    assert xs[0] in ys && ys[0] in xs;
    FirstLeast(xs, ys[0]);
    FirstLeast(ys, xs[0]);
    LessTotal(xs[0].at.key, ys[0].at.key);
  }

  lemma FirstLeast(xs: seq<ViewBinding>, v: ViewBinding)
    requires Ascending(xs) && v in xs && forall x :: x in xs ==> x.at.AtKey?
    ensures v == xs[0] || Less(xs[0].at.key, v.at.key)
  {
    var i :| 0 <= i < |xs| && xs[i] == v;
  }

  lemma RestMember(xs: seq<ViewBinding>, v: ViewBinding)
    requires Ascending(xs) && xs != []
    ensures v in xs[1..] <==> v in xs && v != xs[0]
  {
    if v in xs[1..] {
      var i :| 0 <= i < |xs| - 1 && xs[1..][i] == v;
      assert Less(xs[0].at.key, xs[i + 1].at.key);
      LessTotal(xs[0].at.key, xs[0].at.key);
    }
  }

  // ---- Snapshot of Commit ----

  // The bindings below the first i slots.
  function BelowSlot(b: Radix, m: map<Key, Entry>, depth: nat, i: nat): (r: map<Key, Entry>)
    ensures forall k :: k in r <==> k in m && Digit(b, k, depth) < i
    ensures forall k :: k in r ==> r[k] == m[k]
  {
    map k | k in m && Digit(b, k, depth) < i :: m[k]
  }

  // The canonical tree of a set of bindings is accepted, and its view lists
  // exactly those bindings in ascending key order.
  lemma {:induction false} CommitAccepted(b: Radix, derive: Deriver, m: map<Key, Entry>, path: seq<nat>)
    requires Prefixed(b, m.Keys, path) && Derived(derive, m) && DepthOk(b, |path|)
    ensures MapAccepts(b, derive, MapNode(b, m, |path|), path)
    ensures IsView(CellsView(derive, MapNode(b, m, |path|).cells), m)
    decreases KEY_BITS - |path|, 1
  {
    hide MapNode, MapCell, Digit, OnPath, Derived, Prefixed;
    var cells := MapNode(b, m, |path|).cells;
    MapMeta(b, m, |path|);
    DepthBound(b, |path|);
    forall slot | 0 <= slot < |cells|
      ensures CellAccepts(b, derive, cells[slot], path + [slot])
    {
      CommitCell(b, derive, m, path, slot);
    }
    CommitCells(b, derive, m, path, |cells|);
    assert cells[..|cells|] == cells;
    assert BelowSlot(b, m, |path|, |cells|) == m;
  }

  lemma {:induction false} CommitCells(b: Radix, derive: Deriver, m: map<Key, Entry>, path: seq<nat>, i: nat)
    requires Prefixed(b, m.Keys, path) && Derived(derive, m) && DepthOk(b, |path|) && |path| < KEY_BITS
    requires i <= Slots(b)
    ensures IsView(CellsView(derive, MapNode(b, m, |path|).cells[..i]), BelowSlot(b, m, |path|, i))
    decreases KEY_BITS - |path|, 0, i
  {
    hide MapNode, MapCell, Digit, OnPath, Derived, IsView;
    var cells := MapNode(b, m, |path|).cells;
    MapMeta(b, m, |path|);
    if i == 0 {
      NoView();
      assert BelowSlot(b, m, |path|, 0) == map[];
    } else {
      CommitCells(b, derive, m, path, i - 1);
      CommitCell(b, derive, m, path, i - 1);
      assert cells[..i][..i - 1] == cells[..i - 1];
      var x, y := BelowSlot(b, m, |path|, i - 1), GroupOf(b, m, |path|, i - 1);
      forall j, k | j in x && k in y
        ensures Less(j, k)
      {
        DigitOrder(b, j, k, path);
      }
      ViewConcat(CellsView(derive, cells[..i - 1]), x, CellView(derive, cells[i - 1]), y);
      assert x + y == BelowSlot(b, m, |path|, i);
    }
  }

  lemma NoView()
    ensures IsView([], map[])
  {
  }

  lemma {:induction false} CommitCell(b: Radix, derive: Deriver, m: map<Key, Entry>, path: seq<nat>, slot: nat)
    requires Prefixed(b, m.Keys, path) && Derived(derive, m) && DepthOk(b, |path|) && |path| < KEY_BITS
    requires slot < Slots(b)
    ensures var cell := MapCell(b, m, |path|, slot);
      CellAccepts(b, derive, cell, path + [slot]) && IsView(CellView(derive, cell), GroupOf(b, m, |path|, slot))
    decreases KEY_BITS - |path|, 0, 0
  {
    hide MapNode, MapCell, Digit, OnPath, IsView, MapAccepts, CellsView, CellAccepts, CellView, Derived, Prefixed;
    var g := GroupOf(b, m, |path|, slot);
    if g == map[] {
      CommitBlank(b, derive, m, path, slot);
    } else {
      var k :| k in g;
      if j :| j in g && j != k {
        PrefixedGroup(b, m, path, slot);
        CommitRoute(b, derive, m, path, slot, k);
        ManyDeep(b, m, path, slot, j, k);
        CommitAccepted(b, derive, g, path + [slot]);
        CommitMany(b, derive, m, path, slot, j, k);
      } else {
        CommitOne(b, derive, m, path, slot, k);
      }
    }
  }

  lemma CommitBlank(b: Radix, derive: Deriver, m: map<Key, Entry>, path: seq<nat>, slot: nat)
    requires Prefixed(b, m.Keys, path) && GroupOf(b, m, |path|, slot) == map[]
    ensures var cell := MapCell(b, m, |path|, slot);
      CellAccepts(b, derive, cell, path + [slot]) && IsView(CellView(derive, cell), GroupOf(b, m, |path|, slot))
  {
    hide MapNode, MapCell, Digit, OnPath;
    MapCellIs(b, m, path, slot);
  }

  lemma CommitOne(b: Radix, derive: Deriver, m: map<Key, Entry>, path: seq<nat>, slot: nat, k: Key)
    requires Prefixed(b, m.Keys, path) && Derived(derive, m) && DepthOk(b, |path|)
    requires var g := GroupOf(b, m, |path|, slot); k in g && forall j :: j in g ==> j == k
    ensures var cell := MapCell(b, m, |path|, slot);
      CellAccepts(b, derive, cell, path + [slot]) && IsView(CellView(derive, cell), GroupOf(b, m, |path|, slot))
  {
    hide MapNode, MapCell, Digit, OnPath, IsView, CellAccepts, CellView, Prefixed, Derived;
    var g := GroupOf(b, m, |path|, slot);
    MapCellIs(b, m, path, slot);
    PrefixedGroup(b, m, path, slot);
    CommitRoute(b, derive, m, path, slot, k);
    assert g.Keys == {k} && g == map[k := m[k]];
    CommitLeaf(b, derive, k, m[k], path + [slot]);
  }

  lemma CommitMany(b: Radix, derive: Deriver, m: map<Key, Entry>, path: seq<nat>, slot: nat, j: Key, k: Key)
    requires Prefixed(b, m.Keys, path)
    requires var g := GroupOf(b, m, |path|, slot);
      && j in g && k in g && j != k && MapAccepts(b, derive, MapNode(b, g, |path + [slot]|), path + [slot])
      && IsView(CellsView(derive, MapNode(b, g, |path + [slot]|).cells), g)
    ensures var cell := MapCell(b, m, |path|, slot);
      CellAccepts(b, derive, cell, path + [slot]) && IsView(CellView(derive, cell), GroupOf(b, m, |path|, slot))
  {
    hide MapNode, MapCell, Digit, OnPath, IsView, MapAccepts, CellsView, CellAccepts, CellView, Prefixed;
    MapCellIs(b, m, path, slot);
    CommitSubtree(b, derive, GroupOf(b, m, |path|, slot), path + [slot], j, k);
  }

  // Two bindings in one slot part further down, within the key.
  lemma ManyDeep(b: Radix, m: map<Key, Entry>, path: seq<nat>, slot: nat, j: Key, k: Key)
    requires Prefixed(b, m.Keys, path) && DepthOk(b, |path|)
    requires var g := GroupOf(b, m, |path|, slot); j in g && k in g && j != k
    ensures DepthOk(b, |path + [slot]|) && |path + [slot]| <= KEY_BITS
  {
    hide MapNode, MapCell, Digit, OnPath, Prefixed;
    MapCellIs(b, m, path, slot);
    DepthBound(b, |path|);
  }

  // A binding of a slot's group belongs on the path through the slot.
  lemma CommitRoute(b: Radix, derive: Deriver, m: map<Key, Entry>, path: seq<nat>, slot: nat, k: Key)
    requires Prefixed(b, m.Keys, path) && Derived(derive, m) && k in GroupOf(b, m, |path|, slot)
    requires Prefixed(b, GroupOf(b, m, |path|, slot).Keys, path + [slot])
    ensures OnPath(b, k, path + [slot]) && derive(m[k].name) == Some(AtKey(k))
    ensures Derived(derive, GroupOf(b, m, |path|, slot))
  {
    hide Digit, OnPath;
  }

  lemma CommitLeaf(b: Radix, derive: Deriver, k: Key, e: Entry, path: seq<nat>)
    requires derive(e.name) == Some(AtKey(k)) && OnPath(b, k, path) && path != [] && DepthOk(b, |path| - 1)
    ensures var cell := MapLeaf(e.name, e.target);
      CellAccepts(b, derive, cell, path) && IsView(CellView(derive, cell), map[k := e])
  {
    forall d | 0 <= d < |path|
      ensures DepthOk(b, d)
    {
      TimesMono(d, |path| - 1, b);
    }
    OneView(k, e);
  }

  lemma CommitSubtree(b: Radix, derive: Deriver, g: map<Key, Entry>, path: seq<nat>, j: Key, k: Key)
    requires j in g && k in g && j != k
    requires MapAccepts(b, derive, MapNode(b, g, |path|), path)
    requires IsView(CellsView(derive, MapNode(b, g, |path|).cells), g)
    ensures var cell := Child(MapNode(b, g, |path|));
      CellAccepts(b, derive, cell, path) && IsView(CellView(derive, cell), g)
  {
    hide MapNode, IsView, MapAccepts;
    MapMeta(b, g, |path|);
    TwoViews(CellsView(derive, MapNode(b, g, |path|).cells), g, j, k);
  }

  lemma OneView(k: Key, e: Entry)
    ensures IsView([ViewItem(k, e)], map[k := e])
  {
  }

  lemma TwoViews(vs: seq<ViewBinding>, m: map<Key, Entry>, j: Key, k: Key)
    requires IsView(vs, m) && j in m && k in m && j != k
    ensures |vs| >= 2
  {
    assert ViewItem(j, m[j]) in vs && ViewItem(k, m[k]) in vs;
  }

  // ---- Commit of Snapshot ----

  // Whatever committed tree is accepted is the canonical tree of its view.
  lemma {:induction false} AcceptedCanonical(b: Radix, derive: Deriver, ref: Ref, path: seq<nat>)
    returns (m: map<Key, Entry>)
    requires MapAccepts(b, derive, ref, path) && ref.layout == MapLayout
    ensures IsView(CellsView(derive, ref.cells), m) && ref == MapNode(b, m, |path|)
    ensures Prefixed(b, m.Keys, path) && Derived(derive, m)
    decreases ref, 0
  {
    m := AcceptedCells(b, derive, ref, path, |ref.cells|);
    MapMeta(b, m, |path|);
    assert ref.cells[..|ref.cells|] == ref.cells;
    assert ref.cells == MapNode(b, m, |path|).cells;
  }

  lemma {:induction false} AcceptedCells(b: Radix, derive: Deriver, ref: Ref, path: seq<nat>, i: nat)
    returns (m: map<Key, Entry>)
    requires MapAccepts(b, derive, ref, path) && i <= |ref.cells|
    ensures IsView(CellsView(derive, ref.cells[..i]), m)
    ensures Prefixed(b, m.Keys, path) && Derived(derive, m) && forall k :: k in m ==> Digit(b, k, |path|) < i
    ensures forall slot :: 0 <= slot < i ==> MapCell(b, m, |path|, slot) == ref.cells[slot]
    decreases ref.cells, 1, i
  {
    hide MapNode, MapCell, Digit, OnPath, IsView, Derived;
    if i == 0 {
      m := map[];
      NoView();
      NoDerived(derive);
    } else {
      var x := AcceptedCells(b, derive, ref, path, i - 1);
      var y := AcceptedCell(b, derive, ref.cells[i - 1], path, i - 1);
      m := x + y;
      assert ref.cells[..i][..i - 1] == ref.cells[..i - 1];
      OwnGroup(b, y, path, i - 1);
      forall j, k | j in x && k in y
        ensures Less(j, k)
      {
        assert k in GroupOf(b, y, |path|, i - 1);
        DigitOrder(b, j, k, path);
      }
      ViewConcat(CellsView(derive, ref.cells[..i - 1]), x, CellView(derive, ref.cells[i - 1]), y);
      JoinGroups(b, derive, x, y, path, i - 1);
    }
  }

  lemma NoDerived(derive: Deriver)
    ensures Derived(derive, map[])
  {
  }

  lemma JoinGroups(b: Radix, derive: Deriver, x: map<Key, Entry>, y: map<Key, Entry>, path: seq<nat>, i: nat)
    requires Derived(derive, x) && Derived(derive, y)
    requires forall k :: k in x ==> Digit(b, k, |path|) < i
    requires GroupOf(b, y, |path|, i) == y
    ensures Derived(derive, x + y)
    ensures forall k :: k in x + y ==> Digit(b, k, |path|) < i + 1
    ensures forall slot :: 0 <= slot < i ==> MapCell(b, x + y, |path|, slot) == MapCell(b, x, |path|, slot)
    ensures MapCell(b, x + y, |path|, i) == MapCell(b, y, |path|, i)
  {
    hide Digit;
    forall slot | 0 <= slot < i
      ensures MapCell(b, x + y, |path|, slot) == MapCell(b, x, |path|, slot)
    {
      JoinedGroup(b, x, y, path, i, slot);
      SameGroupCell(b, x + y, x, |path|, slot);
    }
    JoinedGroup(b, x, y, path, i, i);
    SameGroupCell(b, x + y, y, |path|, i);
    assert forall k :: k in y ==> k in GroupOf(b, y, |path|, i);
  }

  lemma JoinedGroup(b: Radix, x: map<Key, Entry>, y: map<Key, Entry>, path: seq<nat>, i: nat, slot: nat)
    requires forall k :: k in x ==> Digit(b, k, |path|) < i
    requires GroupOf(b, y, |path|, i) == y && slot <= i
    ensures GroupOf(b, x + y, |path|, slot) == GroupOf(b, if slot < i then x else y, |path|, slot)
  {
    hide Digit;
    forall k | k in y
      ensures Digit(b, k, |path|) == i
    {
      assert k in GroupOf(b, y, |path|, i);
    }
  }

  lemma SameGroupCell(b: Radix, m: map<Key, Entry>, n: map<Key, Entry>, depth: nat, slot: nat)
    requires GroupOf(b, m, depth, slot) == GroupOf(b, n, depth, slot)
    ensures MapCell(b, m, depth, slot) == MapCell(b, n, depth, slot)
  {
  }

  lemma {:induction false} AcceptedCell(b: Radix, derive: Deriver, cell: Cell, path: seq<nat>, slot: nat)
    returns (g: map<Key, Entry>)
    requires CellAccepts(b, derive, cell, path + [slot]) && |path| < KEY_BITS
    ensures IsView(CellView(derive, cell), g) && Prefixed(b, g.Keys, path + [slot]) && Derived(derive, g)
    ensures MapCell(b, g, |path|, slot) == cell
    decreases cell, 1
  {
    hide MapNode, MapCell, Digit, OnPath, IsView, MapAccepts, CellsView, Prefixed, Derived, RouteOk;
    match cell
    case Blank =>
      g := AcceptedBlank(b, derive, path, slot);
    case MapLeaf(name, target) =>
      g := AcceptedLeaf(b, derive, name, target, path, slot);
    case Child(ref) =>
      g := AcceptedCanonical(b, derive, ref, path + [slot]);
      AcceptedChild(b, derive, ref, path, slot, g);
  }

  lemma AcceptedBlank(b: Radix, derive: Deriver, path: seq<nat>, slot: nat) returns (g: map<Key, Entry>)
    ensures IsView(CellView(derive, Blank), g) && Prefixed(b, g.Keys, path + [slot]) && Derived(derive, g)
    ensures MapCell(b, g, |path|, slot) == Blank
  {
    hide MapNode, MapCell, Digit, OnPath, IsView, CellsView;
    g := map[];
    NoView();
    OwnGroup(b, g, path, slot);
    MapCellIs(b, g, path, slot);
  }

  // A subtree with a view of two bindings is not collapsed.
  lemma AcceptedChild(b: Radix, derive: Deriver, ref: Ref, path: seq<nat>, slot: nat, g: map<Key, Entry>)
    requires ref == MapNode(b, g, |path + [slot]|) && |CellsView(derive, ref.cells)| >= 2
    requires IsView(CellsView(derive, ref.cells), g) && Prefixed(b, g.Keys, path + [slot])
    ensures MapCell(b, g, |path|, slot) == Child(ref)
  {
    hide MapNode, MapCell, Digit, OnPath, IsView, MapAccepts, CellsView;
    OwnGroup(b, g, path, slot);
    MapCellIs(b, g, path, slot);
    ViewPair(CellsView(derive, ref.cells), g);
  }

  lemma AcceptedLeaf(b: Radix, derive: Deriver, name: Label, target: Target, path: seq<nat>, slot: nat)
    returns (g: map<Key, Entry>)
    requires CellAccepts(b, derive, MapLeaf(name, target), path + [slot]) && |path| < KEY_BITS
    ensures IsView(CellView(derive, MapLeaf(name, target)), g) && Prefixed(b, g.Keys, path + [slot])
    ensures Derived(derive, g)
    ensures MapCell(b, g, |path|, slot) == MapLeaf(name, target)
  {
    hide MapNode, MapCell, Digit, OnPath, IsView, MapAccepts;
    var k := derive(name).value.key;
    g := map[k := Entry(name, target)];
    OneView(k, g[k]);
    OwnGroup(b, g, path, slot);
    MapCellIs(b, g, path, slot);
    assert g.Keys == {k};
  }

  lemma ViewPair(vs: seq<ViewBinding>, m: map<Key, Entry>)
    requires IsView(vs, m) && |vs| >= 2
    ensures exists j, k :: j in m && k in m && j != k
  {
    assert vs[0] in vs && vs[1] in vs;
    LessTotal(vs[0].at.key, vs[0].at.key);
    assert vs[0].at.key in m && vs[1].at.key in m && vs[0].at.key != vs[1].at.key;
  }
}
