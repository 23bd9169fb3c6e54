// The canonical List tree of a sequence of targets: the reference construction
// that every incremental List operation has to reproduce.
module ListTree {
  import opened Words
  import opened Geometry
  import opened Nodes

  // Only the root carries metadata.
  datatype Kind = Inner | Root(payload: Option<Target>) {
    function Base(): nat {
      if Root? then 1 else 0
    }
  }

  // The part of `items` below content slot `d`, each slot spanning `s` indices.
  function Chunk(items: seq<Target>, d: nat, s: nat): (part: seq<Target>)
    requires Times(d, s) <= |items|
  {
    items[Times(d, s)..Min(Times(d, s) + s, |items|)]
  }

  function ListCell(b: Radix, items: seq<Target>, h: nat, kind: Kind, slot: nat): Cell
    requires |items| < TWO64
    decreases h, 0
  {
    var s := Span(b, h);
    if kind.Root? && slot == 0 then Meta(|items|, kind.payload) else
      var d := slot - kind.Base();
      if Times(d, s) >= |items| then Blank
      else if h == 0 then TimesOne(d); ListLeaf(items[d])
      else Child(ListNode(b, Chunk(items, d, s), h - 1, Inner))
  }

  function ListNode(b: Radix, items: seq<Target>, h: nat, kind: Kind): Ref
    requires |items| < TWO64
    decreases h, 1
  {
    Ref(ListLayout, seq(Slots(b), slot requires 0 <= slot < Slots(b) => ListCell(b, items, h, kind, slot)))
  }

  // The canonical root for a list and an opaque payload.
  function ListRoot(b: Radix, items: seq<Target>, payload: Option<Target>): Ref
    requires |items| < TWO64
  {
    ListNode(b, items, RootPos(|items|, b).height, Root(payload))
  }

  function PosOf(n: U64, h: nat, kind: Kind): Position {
    Position(n, h, kind.Root?)
  }

  // Shape of a List vector as its parent's context demands it: occupied slots
  // hold cells of the right tag, all others are empty.
  ghost predicate ShapeOk(cells: seq<Cell>, p: Position, b: Radix) {
    && |cells| == Slots(b)
    && p.Used(b) <= Slots(b) - p.Base()
    && forall slot :: p.Base() <= slot < Slots(b) ==>
        if slot - p.Base() >= p.Used(b) then cells[slot] == Blank
        else cells[slot] != Blank && Tag(cells[slot]) == if p.height == 0 then LIST_LEAF else CHILD_NODE
  }

  method CheckPosition(cells: seq<Cell>, p: Position, b: Radix) returns (ok: bool)
    ensures ok <==> ShapeOk(cells, p, b)
  {
    if |cells| != Slots(b) || p.Used(b) > Slots(b) - p.Base() {
      return false;
    }
    for slot := p.Base() to Slots(b)
      invariant forall k :: p.Base() <= k < slot ==>
        if k - p.Base() >= p.Used(b) then cells[k] == Blank
        else cells[k] != Blank && Tag(cells[k]) == if p.height == 0 then LIST_LEAF else CHILD_NODE
    {
      var cell := cells[slot];
      if slot - p.Base() >= p.Used(b) {
        if cell != Blank {
          return false;
        }
        continue;
      }
      var want := if p.height == 0 then LIST_LEAF else CHILD_NODE;
      if cell == Blank || Tag(cell) != want {
        return false;
      }
    }
    return true;
  }

  // Canonical nodes always have the shape their position demands.
  lemma CanonicalShape(b: Radix, items: seq<Target>, h: nat, kind: Kind)
    requires |items| < TWO64 && PosOf(|items|, h, kind).Fits(b)
    ensures ShapeOk(ListNode(b, items, h, kind).cells, PosOf(|items|, h, kind), b)
    ensures WellTagged(ListNode(b, items, h, kind))
  {
    var p := PosOf(|items|, h, kind);
    UsedFits(p, b);
    forall slot | 0 <= slot < Slots(b)
      ensures CellShape(ListCell(b, items, h, kind, slot), p, b, slot)
    {
      if p.Base() <= slot {
        DigitUsed(p, b, slot - p.Base());
      }
    }
  }

  // The role of one cell of a canonical vector.
  ghost predicate CellShape(cell: Cell, p: Position, b: Radix, slot: nat) {
    if slot < p.Base() then cell.Meta?
    else if slot - p.Base() >= p.Used(b) then cell == Blank
    else if p.height == 0 then cell.ListLeaf?
    else cell.Child? && cell.ref.layout == ListLayout
  }

  lemma CanonicalMeta(b: Radix, items: seq<Target>, h: nat, kind: Kind)
    requires |items| < TWO64
    ensures var r := ListNode(b, items, h, kind);
      && r.layout == ListLayout && |r.cells| == Slots(b)
      && (kind.Root? ==> r.cells[0] == Meta(|items|, kind.payload))
  {
  }

  // What the content slots of a canonical vector hold.
  lemma CanonicalCell(b: Radix, items: seq<Target>, h: nat, kind: Kind, d: nat)
    requires |items| < TWO64 && PosOf(|items|, h, kind).Fits(b) && kind.Base() + d < Slots(b)
    ensures var cell, p := ListNode(b, items, h, kind).cells[kind.Base() + d], PosOf(|items|, h, kind);
      if d >= p.Used(b) then cell == Blank
      else if h == 0 then d < |items| && cell == ListLeaf(items[d])
      else Times(d, Span(b, h)) < |items| && cell == Child(ListNode(b, Chunk(items, d, Span(b, h)), h - 1, Inner))
  {
    DigitUsed(PosOf(|items|, h, kind), b, d);
  }

  // An occupied slot of a canonical inner vector: the child's position is as
  // computed by shifts, and the slot holds the canonical node of its interval.
  lemma CanonicalChild(b: Radix, items: seq<Target>, p: Position, kind: Kind, digit: nat)
    requires |items| == p.count && p.root == kind.Root? && p.Fits(b)
    requires p.height > 0 && digit < p.Used(b)
    ensures digit < TWO64 && p.Base() + digit < Slots(b)
    ensures var (child, start) := p.Child(digit, b);
      && start == Times(digit, Span(b, p.height))
      && child.height == p.height - 1 && !child.root && child.count == Min(p.count - start, Span(b, p.height))
      && start < start + child.count <= |items| && child.Fits(b)
      && ListNode(b, items, p.height, kind).cells[p.Base() + digit]
        == Child(ListNode(b, items[start..start + child.count], p.height - 1, Inner))
  {
    hide Position.Child, Position.Used, Times, Span, ListNode, ListCell;
    UsedFits(p, b);
    ChildExact(p, digit, b);
    CanonicalCell(b, items, p.height, kind, digit);
    var (child, start) := p.Child(digit, b);
    assert items[start..start + child.count] == Chunk(items, digit, Span(b, p.height));
  }
}
