// The canonical Map tree of a finite set of bindings: a prefix trie over key
// digits in which a subtree with one binding is collapsed into a leaf.
module MapTree {
  import opened Words
  import opened Geometry
  import opened Nodes
  import opened Bits
  import opened Coordinates

  // What a leaf binds: the original label and its target.
  datatype Entry = Entry(name: Label, target: Target)

  // `bits` key bits per level, most significant first; past the key's end zeros.
  function Digit(b: Radix, key: Key, depth: nat): (d: nat)
    ensures d < Slots(b)
  {
    BitsBound(key, Times(depth, b), b);
    BitsValue(key, Times(depth, b), b)
  }

  // There are digits only while the depth starts inside the key.
  predicate DepthOk(b: Radix, depth: nat) {
    Times(depth, b) < KEY_BITS
  }

  method ComputeDigit(b: Radix, key: Key, depth: nat) returns (r: Result<nat, Error>)
    ensures r == if DepthOk(b, depth) then Ok(Digit(b, key, depth)) else Err(BadNode)
  {
    if !DepthOk(b, depth) {
      return Err(BadNode);
    }
    var value := 0;
    for i := 0 to b
      invariant value == BitsValue(key, Times(depth, b), i)
    {
      value := 2 * value;
      var bit := Times(depth, b) + i;
      if bit < KEY_BITS {
        value := value + if key[bit] then 1 else 0;
      }
    }
    return Ok(value);
  }

  // The bindings whose digit at this depth selects the slot.
  function GroupOf(b: Radix, m: map<Key, Entry>, depth: nat, slot: nat): (g: map<Key, Entry>)
    ensures forall k :: k in g <==> k in m && Digit(b, k, depth) == slot
    ensures forall k :: k in g ==> g[k] == m[k]
  {
    map k | k in m && Digit(b, k, depth) == slot :: m[k]
  }

  // Distinct keys always separate while the depth is inside the key, so the last
  // case below KEY_BITS levels never arises for a reachable group.
  ghost function MapCell(b: Radix, m: map<Key, Entry>, depth: nat, slot: nat): Cell
    decreases KEY_BITS - Min(depth, KEY_BITS), 0
  {
    var g := GroupOf(b, m, depth, slot);
    if g == map[] then Blank else
      var k :| k in g;
      if g.Keys == {k} then MapLeaf(g[k].name, g[k].target)
      else if depth < KEY_BITS then Child(MapNode(b, g, depth + 1))
      else Blank
  }

  ghost function MapNode(b: Radix, m: map<Key, Entry>, depth: nat): Ref
    decreases KEY_BITS - Min(depth, KEY_BITS), 1
  {
    Ref(MapLayout, seq(Slots(b), slot requires 0 <= slot < Slots(b) => MapCell(b, m, depth, slot)))
  }

  // The canonical root for a set of bindings.
  ghost function MapRoot(b: Radix, m: map<Key, Entry>): Ref {
    MapNode(b, m, 0)
  }

  // All keys share the digits of a path from the root.
  ghost predicate OnPath(b: Radix, k: Key, path: seq<nat>) {
    forall i :: 0 <= i < |path| ==> Digit(b, k, i) == path[i]
  }

  ghost predicate Prefixed(b: Radix, keys: set<Key>, path: seq<nat>) {
    forall k :: k in keys ==> OnPath(b, k, path)
  }

  lemma PrefixedGroup(b: Radix, m: map<Key, Entry>, path: seq<nat>, slot: nat)
    requires Prefixed(b, m.Keys, path)
    ensures Prefixed(b, GroupOf(b, m, |path|, slot).Keys, path + [slot])
  {
  }

  // Keys that agree on all digits of a path agree on the bits it covers.
  lemma {:induction false} PathBits(b: Radix, j: Key, k: Key, path: seq<nat>, i: nat)
    requires OnPath(b, j, path) && OnPath(b, k, path) && i < Times(|path|, b)
    ensures BitAt(j, i) == BitAt(k, i)
  {
    var n := |path| - 1;
    if i < Times(n, b) {
      PathBits(b, j, k, path[..n], i);
    } else {
      assert Digit(b, j, n) == path[n] == Digit(b, k, n);
      BitsEqual(j, k, Times(n, b), b);
    }
  }

  // A path long enough to cover the key determines it; so a group of two or more
  // bindings is never deeper than the key.
  lemma PathSeparates(b: Radix, j: Key, k: Key, path: seq<nat>)
    requires OnPath(b, j, path) && OnPath(b, k, path) && !DepthOk(b, |path|)
    ensures j == k
  {
    forall i | 0 <= i < KEY_BITS
      ensures j[i] == k[i]
    {
      PathBits(b, j, k, path, i);
    }
  }

  lemma DepthBound(b: Radix, depth: nat)
    requires DepthOk(b, depth)
    ensures depth < KEY_BITS
  {
    TimesGrows(depth, b);
  }

  // Digit order is key order: keys below a lower slot are smaller.
  lemma DigitOrder(b: Radix, j: Key, k: Key, path: seq<nat>)
    requires OnPath(b, j, path) && OnPath(b, k, path)
    requires Digit(b, j, |path|) < Digit(b, k, |path|)
    ensures Less(j, k)
  {
    var i := BitsLess(j, k, Times(|path|, b), b);
    assert i < KEY_BITS;
    forall p | 0 <= p < i
      ensures j[p] == k[p]
    {
      if p < Times(|path|, b) {
        PathBits(b, j, k, path, p);
      } else {
        assert BitAt(j, p) == BitAt(k, p);
      }
    }
    assert j[..i] == k[..i];
    assert Decides(j, k, i);
    LessIff(j, k);
  }

  // ---- What canonical vectors hold ----

  lemma MapMeta(b: Radix, m: map<Key, Entry>, depth: nat)
    ensures var r := MapNode(b, m, depth);
      r.layout == MapLayout && |r.cells| == Slots(b)
      && forall slot :: 0 <= slot < Slots(b) ==> r.cells[slot] == MapCell(b, m, depth, slot)
  {
  }

  // The cell of a slot depends on whether its group has no, one or more bindings.
  lemma MapCellIs(b: Radix, m: map<Key, Entry>, path: seq<nat>, slot: nat)
    requires Prefixed(b, m.Keys, path)
    ensures var g, cell := GroupOf(b, m, |path|, slot), MapCell(b, m, |path|, slot);
      && (g == map[] ==> cell == Blank)
      && (forall k :: g.Keys == {k} ==> cell == MapLeaf(g[k].name, g[k].target))
      && (forall j, k :: j in g && k in g && j != k ==>
          DepthOk(b, |path| + 1) && cell == Child(MapNode(b, g, |path| + 1)))
      && (forall k :: k in g && g.Keys != {k} ==> cell.Child?)
  {
    var g := GroupOf(b, m, |path|, slot);
    forall j, k | j in g && k in g && j != k
      ensures g.Keys != {j} && DepthOk(b, |path| + 1) && |path| < KEY_BITS
    {
      assert k in g.Keys;
      PrefixedGroup(b, m, path, slot);
      if !DepthOk(b, |path| + 1) {
        PathSeparates(b, j, k, path + [slot]);
      }
      DepthBound(b, |path| + 1);
    }
    forall k | k in g && g.Keys != {k}
      ensures exists j :: j in g && j != k
    {
      assert (forall j :: j in g ==> j == k) ==> g.Keys == {k};
    }
    forall k | g.Keys == {k}
      ensures k in g && forall j :: j in g ==> j == k
    {
      assert k in g.Keys;
      assert forall j :: j in g ==> j in g.Keys;
    }
  }

  // A canonical vector is well tagged, and only its root-free leaves and children appear.
  lemma MapShape(b: Radix, m: map<Key, Entry>, depth: nat)
    ensures WellTagged(MapNode(b, m, depth))
    ensures forall k :: 0 <= k < Slots(b) ==> CleanCell(MapNode(b, m, depth).cells[k])
  {
    var r := MapNode(b, m, depth);
    forall k | 0 <= k < Slots(b)
      ensures CleanCell(r.cells[k])
    {
      assert CleanCell(MapCell(b, m, depth, k));
    }
    forall cell | cell in r.cells
      ensures CleanCell(cell)
    {
    }
  }

  ghost predicate CleanCell(cell: Cell) {
    cell == Blank || cell.MapLeaf? || (cell.Child? && cell.ref.layout == MapLayout)
  }

  // ---- Collapse ----

  // Number of nonempty cells.
  function Occupied(cells: seq<Cell>): nat {
    if cells == [] then 0 else
      Occupied(cells[..|cells| - 1]) + if cells[|cells| - 1] == Blank then 0 else 1
  }

  lemma {:induction false} OccupiedNone(cells: seq<Cell>)
    ensures Occupied(cells) == 0 <==> forall i :: 0 <= i < |cells| ==> cells[i] == Blank
  {
    if cells != [] {
      OccupiedNone(cells[..|cells| - 1]);
    }
  }

  lemma {:induction false} OccupiedOne(cells: seq<Cell>, i: nat)
    requires i < |cells| && cells[i] != Blank
    ensures Occupied(cells) == 1 <==> forall j :: 0 <= j < |cells| && j != i ==> cells[j] == Blank
  {
    var n := |cells| - 1;
    OccupiedNone(cells[..n]);
    if i < n {
      OccupiedOne(cells[..n], i);
    }
    if i == n && Occupied(cells) == 1 {
      assert forall j :: 0 <= j < n ==> cells[..n][j] == cells[j];
    }
  }

  // The vector of a group tells its size: empty, one leaf, or a proper subtree.
  lemma CollapseEmpty(b: Radix, depth: nat)
    ensures Occupied(MapNode(b, map[], depth).cells) == 0
  {
    OccupiedNone(MapNode(b, map[], depth).cells);
  }

  lemma CollapseOne(b: Radix, m: map<Key, Entry>, path: seq<nat>, k: Key)
    requires m.Keys == {k} && Prefixed(b, m.Keys, path)
    ensures var cells := MapNode(b, m, |path|).cells;
      Occupied(cells) == 1 && cells[Digit(b, k, |path|)] == MapLeaf(m[k].name, m[k].target)
  {
    var cells, d := MapNode(b, m, |path|).cells, Digit(b, k, |path|);
    assert k in m.Keys;
    forall j | 0 <= j < |cells|
      ensures cells[j] == if j == d then MapLeaf(m[k].name, m[k].target) else Blank
    {
      MapCellIs(b, m, path, j);
      var g := GroupOf(b, m, |path|, j);
      if j == d {
        assert g.Keys == {k};
      } else {
        assert g == map[];
      }
    }
    OccupiedOne(cells, d);
  }

  lemma CollapseMany(b: Radix, m: map<Key, Entry>, path: seq<nat>, j: Key, k: Key)
    requires j in m && k in m && j != k && Prefixed(b, m.Keys, path)
    ensures var cells := MapNode(b, m, |path|).cells;
      Occupied(cells) != 0 && (Occupied(cells) == 1 ==> forall i :: 0 <= i < |cells| ==> !cells[i].MapLeaf?)
  {
    hide MapNode, MapCell;
    var cells, d, e := MapNode(b, m, |path|).cells, Digit(b, j, |path|), Digit(b, k, |path|);
    MapMeta(b, m, |path|);
    GroupNonblank(b, m, path, j);
    GroupNonblank(b, m, path, k);
    OccupiedNone(cells);
    OccupiedOne(cells, d);
    if d == e {
      MapCellIs(b, m, path, d);
      var g := GroupOf(b, m, |path|, d);
      assert j in g && k in g;
      assert cells[d].Child?;
    } else {
      assert cells[e] != Blank;
    }
  }

  lemma GroupNonblank(b: Radix, m: map<Key, Entry>, path: seq<nat>, k: Key)
    requires k in m && Prefixed(b, m.Keys, path)
    ensures MapCell(b, m, |path|, Digit(b, k, |path|)) != Blank
  {
    var d := Digit(b, k, |path|);
    var g := GroupOf(b, m, |path|, d);
    MapCellIs(b, m, path, d);
    assert k in g;
    if g.Keys != {k} {
      var j :| j in g && j != k;
    }
  }
}
