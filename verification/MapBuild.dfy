// The reference Map construction from a batch of bindings.
module MapBuild {
  import opened Words
  import opened Geometry
  import opened Nodes
  import opened Bits
  import opened Coordinates
  import opened MapTree
  import opened Workspaces
  import opened Grouping
  import opened Sorting

  datatype Binding = Binding(key: Key, name: Label, target: Target) {
    function Entry(): Entry {
      MapTree.Entry(name, target)
    }
  }

  function KeyOf(): Binding -> Key {
    (item: Binding) => item.key
  }

  // The set of bindings a batch on distinct keys stands for.
  function ToMap(items: seq<Binding>): (m: map<Key, Entry>)
    ensures forall item :: item in items ==> item.key in m
    ensures forall k :: k in m ==> exists item :: item in items && item.key == k && item.Entry() == m[k]
  {
    if items == [] then map[] else
      var last := items[|items| - 1];
      assert items == items[..|items| - 1] + [last];
      ToMap(items[..|items| - 1])[last.key := last.Entry()]
  }

  lemma {:induction false} ToMapGets(items: seq<Binding>, item: Binding)
    requires Distinct(items, KeyOf()) && item in items
    ensures ToMap(items)[item.key] == item.Entry()
  {
    var n := |items| - 1;
    assert items == items[..n] + [items[n]];
    var i :| 0 <= i <= n && items[i] == item;
    if i < n {
      assert items[..n][i] == item;
      assert KeyOf()(items[i]) != KeyOf()(items[n]);
      ToMapGets(items[..n], item);
    }
  }

  function SlotRouter(b: Radix, depth: nat): Binding -> nat {
    (item: Binding) => Digit(b, item.key, depth)
  }

  lemma ToMapGroup(b: Radix, items: seq<Binding>, depth: nat, slot: nat)
    requires Distinct(items, KeyOf())
    ensures Distinct(Select(items, SlotRouter(b, depth), slot), KeyOf())
    ensures ToMap(Select(items, SlotRouter(b, depth), slot)) == GroupOf(b, ToMap(items), depth, slot)
  {
    hide Digit, ToMap, Distinct;
    var f, group := SlotRouter(b, depth), Select(items, SlotRouter(b, depth), slot);
    SelectDistinct(items, KeyOf(), f, slot);
    var x, y := ToMap(group), GroupOf(b, ToMap(items), depth, slot);
    forall k | k in x
      ensures k in y && x[k] == y[k]
    {
      ToMapBound(group, k);
      var item :| item in group && item.key == k && item.Entry() == x[k];
      ToMapGets(items, item);
    }
    forall k | k in y
      ensures k in x
    {
      ToMapBound(items, k);
      var item :| item in items && item.key == k && item.Entry() == ToMap(items)[k];
      assert f(item) == slot;
    }
  }

  lemma ToMapBound(items: seq<Binding>, k: Key)
    requires k in ToMap(items)
    ensures exists item :: item in items && item.key == k && item.Entry() == ToMap(items)[k]
  {
  }

  lemma ToMapSize(items: seq<Binding>)
    requires Distinct(items, KeyOf())
    ensures items == [] ==> ToMap(items) == map[]
    ensures |items| == 1 ==> ToMap(items).Keys == {items[0].key} && ToMap(items)[items[0].key] == items[0].Entry()
    ensures |items| > 1 ==>
      items[0].key in ToMap(items) && items[1].key in ToMap(items) && items[0].key != items[1].key
  {
    if |items| > 1 {
      assert KeyOf()(items[0]) != KeyOf()(items[1]);
    }
    if |items| == 1 {
      assert items[..0] == [];
    }
  }

  lemma PathGroup(b: Radix, items: seq<Binding>, path: seq<nat>, slot: nat)
    requires forall item :: item in items ==> OnPath(b, item.key, path)
    ensures forall item :: item in Select(items, SlotRouter(b, |path|), slot) ==> OnPath(b, item.key, path + [slot])
  {
  }

  // What a slot of the canonical node holds, by the size of its group.
  lemma BuildSlot(b: Radix, items: seq<Binding>, path: seq<nat>, slot: nat)
    requires Distinct(items, KeyOf())
    requires forall item :: item in items ==> OnPath(b, item.key, path)
    ensures var group := Select(items, SlotRouter(b, |path|), slot);
      var cell := MapCell(b, ToMap(items), |path|, slot);
      && Distinct(group, KeyOf())
      && (forall item :: item in group ==> OnPath(b, item.key, path + [slot]))
      && (|group| == 0 ==> cell == Blank)
      && (|group| == 1 ==> cell == MapLeaf(group[0].name, group[0].target))
      && (|group| > 1 ==> DepthOk(b, |path| + 1) && cell == Child(MapNode(b, ToMap(group), |path| + 1)))
  {
    hide MapNode, MapCell, OnPath, Distinct, Select, SlotRouter, GroupOf, ToMap;
    var group := Select(items, SlotRouter(b, |path|), slot);
    ToMapPrefixed(b, items, path);
    ToMapGroup(b, items, |path|, slot);
    ToMapSize(group);
    PathGroup(b, items, path, slot);
    MapCellIs(b, ToMap(items), path, slot);
  }

  // Commits the canonical node of a batch on distinct keys below one path.
  method BuildMap(u: Builder, items: seq<Binding>, ghost path: seq<nat>, depth: nat, ghost known: set<Ref>)
    returns (ref: Ref)
    requires u.Ordered(known) && Distinct(items, KeyOf())
    requires |path| == depth && DepthOk(u.b, depth)
    requires forall item :: item in items ==> OnPath(u.b, item.key, path)
    modifies u
    ensures ref == MapNode(u.b, ToMap(items), depth)
    ensures u.Ordered(known) && u.emitted >= old(u.emitted) + {ref}
    decreases KEY_BITS - Min(depth, KEY_BITS)
  {
    hide MapNode, MapCell, OnPath, Builder.Ordered, ToMap, Distinct, WellTagged, Select, SlotRouter, Prefixed;
    var b := u.b;
    ghost var want := MapNode(b, ToMap(items), depth).cells;
    MapMeta(b, ToMap(items), depth);
    MapShape(b, ToMap(items), depth);
    DepthBound(b, depth);
    var groups := GroupBy(items, SlotRouter(b, depth));
    var cells := seq(Slots(b), _ => Blank);
    for i := 0 to |cells|
      invariant u.Ordered(known) && u.emitted >= old(u.emitted) && |cells| == Slots(b)
      invariant forall k :: 0 <= k < |cells| ==> cells[k] == if k < i then want[k] else Blank
      invariant forall k :: 0 <= k < |cells| && cells[k].Child? ==> cells[k].ref in u.emitted
    {
      var group := Group(groups, i);
      BuildSlot(b, items, path, i);
      if |group| == 1 {
        cells := cells[i := MapLeaf(group[0].name, group[0].target)];
      } else if |group| > 1 {
        var sub := BuildMap(u, group, path + [i], depth + 1, known);
        cells := cells[i := Child(sub)];
      }
    }
    assert cells == want;
    ref := u.Commit(MapLayout, cells, known);
  }

  lemma ToMapPrefixed(b: Radix, items: seq<Binding>, path: seq<nat>)
    requires forall item :: item in items ==> OnPath(b, item.key, path)
    ensures Prefixed(b, ToMap(items).Keys, path)
  {
  }

  // The same, as part of an edit.
  method EditMap(u: NodeEdit, items: seq<Binding>, ghost path: seq<nat>, depth: nat) returns (ref: Ref)
    requires u.Valid() && Distinct(items, KeyOf())
    requires |path| == depth && DepthOk(u.b, depth)
    requires forall item :: item in items ==> OnPath(u.b, item.key, path)
    modifies u.builder
    ensures u.Valid() && u.Avail() >= old(u.Avail()) + {ref}
    ensures ref == MapNode(u.b, ToMap(items), depth)
  {
    ref := BuildMap(u.builder, items, path, depth, u.nodes.known.Keys);
  }

  // ---- Sorting by key ----

  function KeyLess(): (Binding, Binding) -> bool {
    (x: Binding, y: Binding) => Less(x.key, y.key)
  }

  lemma KeyOrder()
    ensures Orders(KeyLess())
  {
    forall x: Binding, y: Binding
      ensures Less(x.key, y.key) ==> !Less(y.key, x.key)
    {
      LessTotal(x.key, y.key);
    }
    forall x: Binding, y: Binding, z: Binding
      ensures !Less(y.key, x.key) && !Less(z.key, y.key) ==> !Less(z.key, x.key)
    {
      LessTotal(x.key, y.key);
      LessTotal(y.key, z.key);
      LessTotal(x.key, z.key);
      if Less(x.key, y.key) && Less(y.key, z.key) {
        LessTransitive(x.key, y.key, z.key);
      }
    }
  }
}
