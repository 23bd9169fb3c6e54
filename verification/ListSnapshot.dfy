// Reading a List tree back: which committed trees are accepted, and what they denote.
module ListSnapshot {
  import opened Words
  import opened Geometry
  import opened Nodes
  import opened ListTree
  import opened SequenceUpdate

  // The targets of a vector's leaves in slot order.
  function CellsTargets(cells: seq<Cell>): (ts: seq<Target>)
    decreases cells, 0
  {
    if cells == [] then [] else
      var n := |cells| - 1;
      CellsTargets(cells[..n]) + CellTargets(cells[n])
  }

  function CellTargets(cell: Cell): (ts: seq<Target>)
    decreases cell, 1
  {
    match cell
    case ListLeaf(target) => [target]
    case Child(ref) => CellsTargets(ref.cells)
    case _ => []
  }

  // The shape its position demands, all the way down.
  ghost predicate ListAccepts(b: Radix, ref: Ref, p: Position)
    decreases ref, 0
  {
    && ShapeOk(ref.cells, p, b)
    && forall slot :: p.Base() <= slot < p.Base() + p.Used(b) ==> SlotAccepts(b, ref.cells[slot], p, slot - p.Base())
  }

  ghost predicate SlotAccepts(b: Radix, cell: Cell, p: Position, digit: nat)
    decreases cell, 1
  {
    if p.height == 0 then cell.ListLeaf?
    else cell.Child? && cell.ref.layout == ListLayout && digit < TWO64 && ListAccepts(b, cell.ref, p.Child(digit, b).0)
  }

  lemma {:induction false} TargetsPrefix(cells: seq<Cell>, i: nat, j: nat)
    requires i <= j <= |cells|
    ensures CellsTargets(cells[..i]) <= CellsTargets(cells[..j])
    decreases j
  {
    if i < j {
      TargetsPrefix(cells, i, j - 1);
      TargetsNext(cells, j - 1);
    }
  }

  lemma TargetsNext(cells: seq<Cell>, i: nat)
    requires i < |cells|
    ensures CellsTargets(cells[..i + 1]) == CellsTargets(cells[..i]) + CellTargets(cells[i])
  {
    assert cells[..i + 1][..i] == cells[..i];
  }

  lemma TargetsAll(cells: seq<Cell>)
    ensures cells[..|cells|] == cells && CellsTargets(cells[..0]) == []
  {
  }

  lemma {:induction false} TargetsPadding(cells: seq<Cell>, i: nat)
    requires i <= |cells| && forall k :: i <= k < |cells| ==> cells[k] == Blank
    ensures CellsTargets(cells) == CellsTargets(cells[..i])
    decreases |cells| - i
  {
    TargetsAll(cells);
    if i < |cells| {
      TargetsNext(cells, i);
      TargetsPadding(cells, i + 1);
    }
  }

  // ---- Commit of Snapshot ----

  // The content of an accepted vector is the list of its canonical node.
  lemma {:induction false} AcceptedList(b: Radix, ref: Ref, p: Position, kind: Kind)
    requires ListAccepts(b, ref, p) && ref.layout == ListLayout && p.Fits(b) && p.root == kind.Root?
    requires p.root ==> ref.cells[0] == Meta(p.count, kind.payload)
    ensures |CellsTargets(ref.cells)| == p.count
    ensures ref == ListNode(b, CellsTargets(ref.cells), p.height, kind)
    decreases p.height, 2, 0
  {
    hide ListNode, ListCell, Span, Times, CellsTargets, Position.Used, Position.Fits, Position.Child;
    var items, cells := CellsTargets(ref.cells), ref.cells;
    AcceptedPrefix(b, ref, p, p.Used(b));
    ShapePadding(cells, p, b);
    TargetsPadding(cells, p.Base() + p.Used(b));
    UsedAll(b, p);
    var want := ListNode(b, items, p.height, kind).cells;
    CanonicalMeta(b, items, p.height, kind);
    CanonicalPadding(b, items, p, kind);
    forall slot | p.Base() <= slot < p.Base() + p.Used(b)
      ensures cells[slot] == want[slot]
    {
      AcceptedSlot(b, ref, p, kind, slot - p.Base());
    }
    assert cells == want;
  }

  lemma UsedAll(b: Radix, p: Position)
    requires p.Fits(b)
    ensures Min(Times(p.Used(b), Span(b, p.height)), p.count) == p.count
  {
    DigitUsed(p, b, p.Used(b));
  }

  // How many targets the first d content slots hold.
  lemma {:induction false} AcceptedPrefix(b: Radix, ref: Ref, p: Position, d: nat)
    requires ListAccepts(b, ref, p) && p.Fits(b) && d <= p.Used(b)
    requires p.root ==> ref.cells[0].Meta?
    ensures p.Base() + d <= |ref.cells|
    ensures |CellsTargets(ref.cells[..p.Base() + d])| == Min(Times(d, Span(b, p.height)), p.count)
    decreases p.height, 0, d
  {
    hide ListNode, Span, Times, Position.Fits, Position.Child, CellsTargets, CellTargets;
    var cells := ref.cells;
    UsedFits(p, b);
    if d == 0 {
      TimesZero(Span(b, p.height));
      RootTargets(cells, p);
    } else {
      AcceptedPrefix(b, ref, p, d - 1);
      DigitUsed(p, b, d - 1);
      TargetsNext(cells, p.Base() + d - 1);
      TimesNext(d - 1, Span(b, p.height));
      assert SlotAccepts(b, cells[p.Base() + (d - 1)], p, d - 1);
      AcceptedCount(b, cells[p.Base() + d - 1], p, d - 1);
    }
  }

  lemma RootTargets(cells: seq<Cell>, p: Position)
    requires p.Base() <= |cells| && (p.root ==> cells[0].Meta?)
    ensures CellsTargets(cells[..p.Base()]) == []
  {
    if p.root {
      assert cells[..1] == [cells[0]];
      assert CellsTargets(cells[..1][..0]) == [];
    }
  }

  lemma {:induction false} AcceptedCount(b: Radix, cell: Cell, p: Position, d: nat)
    requires SlotAccepts(b, cell, p, d) && p.Fits(b) && d < p.Used(b)
    ensures var start, s := Times(d, Span(b, p.height)), Span(b, p.height);
      start < p.count && |CellTargets(cell)| == Min(p.count - start, s)
    ensures p.height > 0 ==>
      cell == Child(ListNode(b, CellTargets(cell), p.height - 1, Inner)) && |CellTargets(cell)| < TWO64
    decreases p.height, 0, 0
  {
    hide ListNode, Span, Times, Position.Fits, Position.Child, ListAccepts;
    if p.height == 0 {
      LeafUsed(p, b);
      LeafSpan(b, d);
    } else {
      ChildExact(p, d, b);
      AcceptedList(b, cell.ref, p.Child(d, b).0, Inner);
    }
  }

  lemma {:induction false} AcceptedSlot(b: Radix, ref: Ref, p: Position, kind: Kind, d: nat)
    requires ListAccepts(b, ref, p) && p.Fits(b) && p.root == kind.Root? && d < p.Used(b)
    requires p.root ==> ref.cells[0].Meta?
    requires |CellsTargets(ref.cells)| == p.count
    ensures p.Base() + d < |ref.cells| == Slots(b)
    ensures ref.cells[p.Base() + d] == ListNode(b, CellsTargets(ref.cells), p.height, kind).cells[p.Base() + d]
    decreases p.height, 1, 0
  {
    hide ListNode, ListCell, Span, Times, Position.Fits, Position.Child, CellsTargets, CellTargets;
    var items, cells, slot, s := CellsTargets(ref.cells), ref.cells, p.Base() + d, Span(b, p.height);
    UsedFits(p, b);
    AcceptedPrefix(b, ref, p, d);
    AcceptedPrefix(b, ref, p, d + 1);
    TimesNext(d, s);
    TargetsNext(cells, slot);
    TargetsPrefix(cells, slot + 1, |cells|);
    TargetsAll(cells);
    assert SlotAccepts(b, cells[slot], p, d);
    AcceptedCount(b, cells[slot], p, d);
    CanonicalCell(b, items, p.height, kind, d);
    ChunkOf(items, CellsTargets(cells[..slot]), CellTargets(cells[slot]), d, s);
    if p.height == 0 {
      LeafSpan(b, d);
      LeafTarget(cells[slot]);
    }
  }

  lemma LeafTarget(cell: Cell)
    requires cell.ListLeaf?
    ensures CellTargets(cell) == [cell.target]
  {
  }

  lemma ChunkOf(items: seq<Target>, before: seq<Target>, part: seq<Target>, d: nat, s: nat)
    requires before + part <= items && |before| == Times(d, s) && |part| == Min(|items| - |before|, s)
    ensures Chunk(items, d, s) == part
  {
  }

  // ---- Snapshot of Commit ----

  // The canonical tree of a list is accepted and its leaves are that list.
  lemma {:induction false} ListAccepted(b: Radix, items: seq<Target>, p: Position, kind: Kind)
    requires |items| == p.count && p.root == kind.Root? && p.Fits(b)
    ensures ListAccepts(b, ListNode(b, items, p.height, kind), p)
    ensures CellsTargets(ListNode(b, items, p.height, kind).cells) == items
    decreases p.height, 1, 0
  {
    hide ListNode, ListCell, Span, Times, CellsTargets, Position.Used, Position.Fits, Position.Child, ShapeOk;
    var ref := ListNode(b, items, p.height, kind);
    CanonicalShape(b, items, p.height, kind);
    forall slot | p.Base() <= slot < p.Base() + p.Used(b)
      ensures SlotAccepts(b, ref.cells[slot], p, slot - p.Base())
    {
      ListSlotAccepted(b, items, p, kind, slot - p.Base());
    }
    ListPrefix(b, items, p, kind, p.Used(b));
    ShapePadding(ref.cells, p, b);
    TargetsPadding(ref.cells, p.Base() + p.Used(b));
    UsedAll(b, p);
    assert items[..|items|] == items;
  }

  lemma {:induction false} ListSlotAccepted(b: Radix, items: seq<Target>, p: Position, kind: Kind, d: nat)
    requires |items| == p.count && p.root == kind.Root? && p.Fits(b) && d < p.Used(b)
    ensures p.Base() + d < |ListNode(b, items, p.height, kind).cells|
    ensures var cell, start := ListNode(b, items, p.height, kind).cells[p.Base() + d], Times(d, Span(b, p.height));
      && start < p.count && SlotAccepts(b, cell, p, d)
      && CellTargets(cell) == items[start..Min(start + Span(b, p.height), |items|)]
    decreases p.height, 0, 0
  {
    hide ListNode, ListCell, Span, Times, Position.Used, Position.Fits, Position.Child, ListAccepts;
    UsedFits(p, b);
    CanonicalMeta(b, items, p.height, kind);
    DigitUsed(p, b, d);
    if p.height == 0 {
      CanonicalCell(b, items, 0, kind, d);
      LeafSpan(b, d);
    } else {
      CanonicalChild(b, items, p, kind, d);
      var (child, start) := p.Child(d, b);
      var part := items[start..start + child.count];
      CanonicalMeta(b, part, p.height - 1, Inner);
      ListAccepted(b, part, child, Inner);
    }
  }

  lemma {:induction false} ListPrefix(b: Radix, items: seq<Target>, p: Position, kind: Kind, d: nat)
    requires |items| == p.count && p.root == kind.Root? && p.Fits(b) && d <= p.Used(b)
    ensures p.Base() + d <= |ListNode(b, items, p.height, kind).cells|
    ensures CellsTargets(ListNode(b, items, p.height, kind).cells[..p.Base() + d])
      == items[..Min(Times(d, Span(b, p.height)), |items|)]
    decreases p.height, 0, d
  {
    hide ListNode, ListCell, Span, Times, Position.Used, Position.Fits, Position.Child, CellsTargets, CellTargets,
      SlotAccepts;
    var cells := ListNode(b, items, p.height, kind).cells;
    UsedFits(p, b);
    CanonicalMeta(b, items, p.height, kind);
    if d == 0 {
      TimesZero(Span(b, p.height));
      RootTargets(cells, p);
    } else {
      ListPrefix(b, items, p, kind, d - 1);
      ListSlotAccepted(b, items, p, kind, d - 1);
      TargetsNext(cells, p.Base() + d - 1);
      TimesNext(d - 1, Span(b, p.height));
    }
  }
}
