// Length-changing List edits. Each is proved to give exactly the canonical root
// of the new logical list.
module SequenceUpdate {
  import opened Words
  import opened Geometry
  import opened Nodes
  import opened ListTree
  import opened Vectors
  import opened Workspaces

  // A cell that can be part of a staged vector.
  ghost predicate Committable(cell: Cell, avail: set<Ref>) {
    match cell
    case Child(ref) => ref.layout == ListLayout && ref in avail
    case Malformed(tag, _) => tag != CHILD_NODE
    case _ => true
  }

  lemma CommittableNode(cells: seq<Cell>, avail: set<Ref>)
    requires forall k :: 0 <= k < |cells| ==> Committable(cells[k], avail)
    ensures WellTagged(Ref(ListLayout, cells))
    ensures forall k :: 0 <= k < |cells| && cells[k].Child? ==> cells[k].ref in avail
  {
  }

  lemma OldDigits(old_: Position, next: Position, b: Radix)
    requires old_.count <= next.count && old_.Fits(b) && old_.height <= next.height
    ensures old_.height == next.height ==> old_.Used(b) <= next.Used(b)
    ensures old_.height < next.height ==> old_.count <= Span(b, next.height)
  {
    if old_.height == next.height {
      DigitUsed(old_, b, next.Used(b));
      DigitUsed(next, b, next.Used(b));
    } else {
      SpanMono(b, old_.height + 1, next.height);
      TimesMono(Slots(b) - old_.Base(), Slots(b), Span(b, old_.height));
    }
  }

  // `copy(cells[to:], previous[from:])` into an empty vector.
  function Carry(previous: seq<Cell>, from: nat, to: nat): (cells: seq<Cell>)
    requires from <= |previous|
    ensures |cells| == |previous|
    ensures forall k :: 0 <= k < |cells| ==>
      cells[k] == if to <= k && k - to + from < |previous| then previous[k - to + from] else Blank
  {
    seq(|previous|, k requires 0 <= k < |previous| =>
      if to <= k && k - to + from < |previous| then previous[k - to + from] else Blank)
  }

  // Appends inside a vector of leaves.
  method AppendLeaves(b: Radix, previous: seq<Cell>, old_: Position, next: Position, kind: Kind, items: seq<Target>,
                      ghost prefix: seq<Target>, ghost oldKind: Kind)
    returns (cells: seq<Cell>)
    requires ShapeOk(previous, old_, b)
    requires |prefix| == old_.count && |prefix| + |items| == next.count
    requires old_.root == oldKind.Root? && next.root == kind.Root? && (next.root ==> old_.root)
    requires old_.height == next.height == 0 && old_.Fits(b) && next.Fits(b)
    ensures |cells| == Slots(b) && forall k :: 0 <= k < |cells| ==> Committable(cells[k], {})
    ensures previous == ListNode(b, prefix, 0, oldKind).cells ==>
      cells == ListNode(b, prefix + items, 0, kind).cells
  {
    hide ListNode, ListCell, Position.Used, Position.Fits;
    LeafUsed(old_, b);
    LeafUsed(next, b);
    UsedFits(next, b);
    ghost var all := prefix + items;
    ghost var canonical := previous == ListNode(b, prefix, 0, oldKind).cells;
    ghost var want := ListNode(b, all, 0, kind).cells;
    CanonicalMeta(b, all, 0, kind);
    CanonicalLeaves(b, all, kind);
    CanonicalLeaves(b, prefix, oldKind);
    cells := Carry(previous, old_.Base(), next.Base());
    if next.root {
      cells := cells[0 := Meta(next.count, kind.payload)];
    }
    for i := 0 to |items|
      invariant |cells| == Slots(b) && forall k :: 0 <= k < |cells| ==> Committable(cells[k], {})
      invariant canonical ==> forall k :: 0 <= k < next.Base() + |prefix| + i ==> cells[k] == want[k]
      invariant forall k :: next.Base() + |prefix| + i <= k < |cells| ==> cells[k] == Blank
    {
      cells := cells[next.Base() + old_.count + i := ListLeaf(items[i])];
    }
    assert canonical ==> cells == want;
  }

  lemma CanonicalLeaves(b: Radix, items: seq<Target>, kind: Kind)
    requires |items| < TWO64 && PosOf(|items|, 0, kind).Fits(b)
    ensures kind.Base() + |items| <= Slots(b)
    ensures forall k :: kind.Base() <= k < Slots(b) ==>
      ListNode(b, items, 0, kind).cells[k]
      == if k - kind.Base() < |items| then ListLeaf(items[k - kind.Base()]) else Blank
  {
    hide ListNode, ListCell, Position.Used, Position.Fits;
    var p := PosOf(|items|, 0, kind);
    LeafUsed(p, b);
    UsedFits(p, b);
    CanonicalMeta(b, items, 0, kind);
    forall k | kind.Base() <= k < Slots(b)
      ensures ListNode(b, items, 0, kind).cells[k]
        == if k - kind.Base() < |items| then ListLeaf(items[k - kind.Base()]) else Blank
    {
      CanonicalCell(b, items, 0, kind, k - kind.Base());
    }
  }

  // Grows the canonical node of `prefix` at position `old_` to position `next`,
  // consuming exactly `items`. A root that loses its role is demoted: slot zero
  // is reclaimed and its content moves down by one slot.
  method AppendNode(u: NodeEdit, ref: Ref, old_: Position, next: Position, kind: Kind, items: seq<Target>,
                    ghost prefix: seq<Target>, ghost oldKind: Kind)
    returns (r: Result<Ref, Error>)
    requires u.Valid() && ref in u.nodes.known && ref.layout == ListLayout
    requires |prefix| == old_.count && |prefix| + |items| == next.count
    requires old_.root == oldKind.Root? && next.root == kind.Root?
    requires old_.Fits(u.b) && next.Fits(u.b) && old_.height <= next.height
    requires !old_.root ==> !next.root && old_.height == next.height
    requires next.root ==> items != []
    modifies u, u.nodes, u.builder
    ensures u.Valid() && u.nodes.written == old(u.nodes.written)
    ensures u.nodes.known.Keys >= old(u.nodes.known.Keys) && u.Avail() >= old(u.Avail())
    ensures r.Ok? ==> r.value.layout == ListLayout && r.value in u.Avail()
    ensures ref == ListNode(u.b, prefix, old_.height, oldKind) ==>
      r == Ok(ListNode(u.b, prefix + items, next.height, kind))
    ensures r.Err? ==> r.error != Incomplete
    decreases next.height, 2
  {
    hide ListNode, ListCell, Position.Used, Position.Fits, Position.Child, ShapeOk, Span, NodeEdit.Valid;
    var b := u.b;
    if old_ == next {
      assert prefix + items == prefix;
      return Ok(ref);
    }
    if old_.count == 0 {
      assert prefix + items == items;
      var built := u.BuildList(items, next, kind);
      CanonicalMeta(b, items, next.height, kind);
      return Ok(built);
    }
    var previous: seq<Cell> := [];
    if old_.height == next.height {
      var got := u.GetNode(ref);
      previous := got.value;
      var ok := CheckPosition(previous, old_, b);
      CanonicalShape(b, prefix, old_.height, oldKind);
      if !ok {
        return Err(BadNode);
      }
    }
    var cells: seq<Cell>;
    if next.height == 0 {
      cells := AppendLeaves(b, previous, old_, next, kind, items, prefix, oldKind);
    } else {
      var filled := AppendChildren(u, ref, previous, old_, next, kind, items, prefix, oldKind);
      if filled.Err? {
        return Err(filled.error);
      }
      cells := filled.value;
    }
    CommittableNode(cells, u.Avail());
    var node := u.Commit(ListLayout, cells);
    CanonicalMeta(b, prefix + items, next.height, kind);
    return Ok(node);
  }

  // The interior case: digits below the old count extend their old child, later
  // digits are built from the remaining items.
  method AppendChildren(u: NodeEdit, ref: Ref, previous: seq<Cell>, old_: Position, next: Position, kind: Kind,
                        items: seq<Target>, ghost prefix: seq<Target>, ghost oldKind: Kind)
    returns (r: Result<seq<Cell>, Error>)
    requires u.Valid() && ref in u.nodes.known && ref.layout == ListLayout
    requires |prefix| == old_.count > 0 && |prefix| + |items| == next.count
    requires old_.root == oldKind.Root? && next.root == kind.Root?
    requires old_.Fits(u.b) && next.Fits(u.b) && old_.height <= next.height
    requires !old_.root ==> !next.root && old_.height == next.height
    requires next.root ==> items != []
    requires next.height > 0
    requires old_.height == next.height ==>
      previous == ref.cells && ShapeOk(previous, old_, u.b) && Children(ref) <= u.nodes.known.Keys
    modifies u, u.nodes, u.builder
    ensures u.Valid() && u.nodes.written == old(u.nodes.written)
    ensures u.nodes.known.Keys >= old(u.nodes.known.Keys) && u.Avail() >= old(u.Avail())
    ensures r.Ok? ==> |r.value| == Slots(u.b)
    ensures r.Ok? ==> forall k :: 0 <= k < |r.value| ==> Committable(r.value[k], u.Avail())
    ensures ref == ListNode(u.b, prefix, old_.height, oldKind) ==>
      r == Ok(ListNode(u.b, prefix + items, next.height, kind).cells)
    ensures r.Err? ==> r.error != Incomplete
    decreases next.height, 1
  {
    hide ListNode, ListCell, Position.Used, Position.Fits, Position.Child, ShapeOk, Span, Times, Remaining, Agree,
      NodeEdit.Valid, Building;
    var b := u.b;
    ghost var all := prefix + items;
    ghost var canonical := ref == ListNode(b, prefix, old_.height, oldKind);
    ghost var want := ListNode(b, all, next.height, kind).cells;
    CanonicalMeta(b, all, next.height, kind);
    CanonicalPadding(b, all, next, kind);
    OldDigits(old_, next, b);
    UsedFits(next, b);
    var cells := StartCells(b, previous, old_, next, kind);
    ghost var end := next.Base() + next.Used(b);
    var rest := items;
    TakeNone(prefix, items);
    BuildingWiden(cells, next.Base(), end, {}, u.Avail());
    AgreeRoot(cells, want, next.Base());
    TimesZero(Span(b, next.height));
    for digit := 0 to next.Used(b)
      invariant u.Valid() && u.nodes.written == old(u.nodes.written)
      invariant u.nodes.known.Keys >= old(u.nodes.known.Keys) && u.Avail() >= old(u.Avail())
      invariant |cells| == Slots(b)
      invariant Building(cells, next.Base() + digit, end, u.Avail())
      invariant canonical ==> Agree(cells, want, next.Base() + digit)
      invariant rest == Remaining(prefix, all, Times(digit, Span(b, next.height)))
    {
      CanonicalChild(b, all, next, kind, digit);
      ghost var small := u.Avail();
      var child;
      child, rest := AppendDigit(u, ref, previous, old_, next, digit, rest, prefix, all, oldKind);
      if child.Err? {
        return Err(child.error);
      }
      TimesNext(digit, Span(b, next.height));
      BuildingNext(cells, next.Base() + digit, end, child.value, small, u.Avail());
      AgreeNext(cells, want, next.Base() + digit, Child(child.value));
      cells := cells[next.Base() + digit := Child(child.value)];
    }
    BuildingDone(cells, end, u.Avail());
    AgreeAll(cells, want, end);
    return Ok(cells);
  }

  // A vector under construction: cells before `done` are final, cells from `end` on stay empty.
  ghost predicate Building(cells: seq<Cell>, done: nat, end: nat, avail: set<Ref>) {
    && done <= end <= |cells|
    && (forall k :: 0 <= k < done ==> Committable(cells[k], avail))
    && forall k :: end <= k < |cells| ==> cells[k] == Blank
  }

  lemma BuildingNext(cells: seq<Cell>, done: nat, end: nat, ref: Ref, small: set<Ref>, avail: set<Ref>)
    requires done < end && ref in avail && ref.layout == ListLayout
    requires small <= avail && Building(cells, done, end, small)
    ensures Building(cells[done := Child(ref)], done + 1, end, avail)
  {
  }

  lemma BuildingWiden(cells: seq<Cell>, done: nat, end: nat, small: set<Ref>, avail: set<Ref>)
    requires small <= avail && Building(cells, done, end, small)
    ensures Building(cells, done, end, avail)
  {
  }

  lemma BuildingDone(cells: seq<Cell>, end: nat, avail: set<Ref>)
    requires Building(cells, end, end, avail)
    ensures forall k :: 0 <= k < |cells| ==> Committable(cells[k], avail)
    ensures forall k :: end <= k < |cells| ==> cells[k] == Blank
  {
  }

  // The vector before its children are placed.
  method StartCells(b: Radix, previous: seq<Cell>, old_: Position, next: Position, kind: Kind)
    returns (cells: seq<Cell>)
    requires next.root == kind.Root?
    requires old_.height == next.height ==> ShapeOk(previous, old_, b) && (next.root ==> old_.root)
    requires old_.count <= next.count && old_.Fits(b) && next.Fits(b) && old_.height <= next.height
    ensures |cells| == Slots(b)
    ensures Building(cells, next.Base(), next.Base() + next.Used(b), {})
    ensures next.root ==> cells[0] == Meta(next.count, kind.payload)
  {
    hide Position.Used, Position.Fits, ShapeOk;
    OldDigits(old_, next, b);
    UsedFits(next, b);
    cells := seq(Slots(b), _ => Blank);
    if old_.height == next.height {
      ShapePadding(previous, old_, b);
      cells := Carry(previous, old_.Base(), next.Base());
    }
    if next.root {
      cells := cells[0 := Meta(next.count, kind.payload)];
    }
  }

  // The child at one digit of the grown node, and the items left after it.
  method AppendDigit(u: NodeEdit, ref: Ref, previous: seq<Cell>, old_: Position, next: Position, digit: U64,
                     items: seq<Target>, ghost prefix: seq<Target>, ghost all: seq<Target>, ghost oldKind: Kind)
    returns (r: Result<Ref, Error>, rest: seq<Target>)
    requires u.Valid() && ref in u.nodes.known && ref.layout == ListLayout
    requires |prefix| == old_.count && |all| == next.count && prefix <= all
    requires old_.root == oldKind.Root? && old_.Fits(u.b) && next.Fits(u.b) && old_.height <= next.height
    requires !old_.root ==> !next.root && old_.height == next.height
    requires next.height > 0 && digit < next.Used(u.b)
    requires items == Remaining(prefix, all, next.Child(digit, u.b).1)
    requires old_.height == next.height ==>
      previous == ref.cells && ShapeOk(previous, old_, u.b) && Children(ref) <= u.nodes.known.Keys
    modifies u, u.nodes, u.builder
    ensures u.Valid() && u.nodes.written == old(u.nodes.written)
    ensures u.nodes.known.Keys >= old(u.nodes.known.Keys) && u.Avail() >= old(u.Avail())
    ensures r.Ok? ==> r.value.layout == ListLayout && r.value in u.Avail()
    ensures var (child, start) := next.Child(digit, u.b);
      && (r.Ok? ==> rest == Remaining(prefix, all, start + Span(u.b, next.height)))
      && start + child.count <= |all|
      && (ref == ListNode(u.b, prefix, old_.height, oldKind) ==>
          r == Ok(ListNode(u.b, all[start..start + child.count], next.height - 1, Inner)))
    ensures r.Err? ==> r.error != Incomplete
    decreases next.height, 0
  {
    hide ListNode, ListCell, Position.Used, Position.Fits, Position.Child, ShapeOk, Span, Times, Remaining,
      NodeEdit.Valid;
    var b := u.b;
    ChildExact(next, digit, b);
    var (childPos, start) := next.Child(digit, b);
    if start >= old_.count {
      TakeFresh(prefix, all, start, childPos.count, Span(b, next.height));
      var built := u.BuildList(items[..childPos.count], childPos, Inner);
      CanonicalMeta(b, items[..childPos.count], childPos.height, Inner);
      return Ok(built), items[childPos.count..];
    }
    OldDigits(old_, next, b);
    var oldChild, child := old_, ref;
    ghost var oldChildKind := oldKind;
    if next.height == old_.height {
      DigitUsed(old_, b, digit);
      CanonicalChild(b, prefix, old_, oldKind, digit);
      CanonicalMeta(b, prefix[start..start + old_.Child(digit, b).0.count], next.height - 1, Inner);
      ShapeChild(previous, old_, b, digit);
      var parsed := ParseChild(previous[old_.Base() + digit], ref);
      if parsed.Err? {
        return Err(parsed.error), [];
      }
      child := parsed.value;
      oldChild := old_.Child(digit, b).0;
      oldChildKind := Inner;
    } else {
      FirstDigit(digit, Span(b, next.height));
      assert prefix == prefix[start..start + oldChild.count];
    }
    ghost var oldItems := prefix[start..start + oldChild.count];
    var added := childPos.count - oldChild.count;
    TakeGrown(prefix, all, start, childPos.count, oldChild.count, Span(b, next.height));
    r := AppendNode(u, child, oldChild, childPos, Inner, items[..added], oldItems, oldChildKind);
    rest := items[added..];
  }

  // The items not yet consumed once every index below `start` is placed.
  ghost function Remaining(prefix: seq<Target>, all: seq<Target>, start: nat): seq<Target>
    requires |prefix| <= |all|
  {
    all[Max(|prefix|, Min(start, |all|))..]
  }

  lemma TakeNone(prefix: seq<Target>, items: seq<Target>)
    ensures prefix <= prefix + items && items == Remaining(prefix, prefix + items, 0)
  {
  }

  lemma TakeFresh(prefix: seq<Target>, all: seq<Target>, start: nat, count: nat, s: nat)
    requires |prefix| <= start < |all| && count == Min(|all| - start, s)
    ensures var rest := Remaining(prefix, all, start);
      count <= |rest| && rest[..count] == all[start..start + count]
      && rest[count..] == Remaining(prefix, all, start + s)
  {
  }

  lemma TakeGrown(prefix: seq<Target>, all: seq<Target>, start: nat, count: nat, oldCount: nat, s: nat)
    requires prefix <= all && start < |prefix|
    requires count == Min(|all| - start, s) && oldCount == Min(|prefix| - start, s)
    ensures var rest, added := Remaining(prefix, all, start), count - oldCount;
      0 <= added <= |rest|
      && prefix[start..start + oldCount] + rest[..added] == all[start..start + count]
      && rest[added..] == Remaining(prefix, all, start + s)
  {
  }

  lemma TimesZero(s: nat)
    ensures Times(0, s) == 0
  {
  }

  lemma TimesNext(d: nat, s: nat)
    ensures Times(d + 1, s) == Times(d, s) + s
  {
  }

  lemma FirstDigit(d: nat, s: nat)
    requires Times(d, s) < s
    ensures d == 0 && Times(d, s) == 0
  {
    TimesNext(0, s);
    TimesMono(Min(1, d), d, s);
  }

  lemma CanonicalPadding(b: Radix, items: seq<Target>, p: Position, kind: Kind)
    requires |items| == p.count && p.root == kind.Root? && p.Fits(b)
    ensures var cells := ListNode(b, items, p.height, kind).cells;
      forall k :: p.Base() + p.Used(b) <= k < |cells| ==> cells[k] == Blank
  {
    CanonicalShape(b, items, p.height, kind);
  }

  lemma ShapePadding(cells: seq<Cell>, p: Position, b: Radix)
    requires ShapeOk(cells, p, b)
    ensures |cells| == Slots(b) && p.Base() <= Slots(b)
    ensures forall k :: p.Base() + p.Used(b) <= k < |cells| ==> cells[k] == Blank
  {
  }

  lemma ShapeChild(cells: seq<Cell>, p: Position, b: Radix, d: nat)
    requires ShapeOk(cells, p, b) && p.height > 0 && d < p.Used(b)
    ensures p.Base() + d < |cells| && cells[p.Base() + d] != Blank
  {
  }

  // A list that a root may stand for: `root` is the canonical root of it.
  ghost predicate Canonical(b: Radix, root: Ref, items: seq<Target>, payload: Option<Target>) {
    |items| < TWO64 && root == ListRoot(b, items, payload)
  }

  // Loads a List root with its metadata and checks its shape.
  method Sequence(u: NodeEdit, root: Ref) returns (r: Result<(seq<Cell>, Metadata), Error>)
    requires u.Valid()
    modifies u, u.nodes
    ensures u.Valid() && u.nodes.written == old(u.nodes.written)
    ensures u.nodes.known.Keys >= old(u.nodes.known.Keys)
    ensures r.Ok? ==>
      && root.layout == ListLayout && root in u.nodes.known && r.value.0 == root.cells && |root.cells| == Slots(u.b)
      && WellTagged(root) && Children(root) <= u.nodes.known.Keys
      && ParseMetadata(root.cells[0]) == Ok(r.value.1)
      && ShapeOk(root.cells, RootPos(r.value.1.count, u.b), u.b)
    ensures r.Err? ==> forall items, payload :: Canonical(u.b, root, items, payload) ==> root !in old(u.nodes.known)
    ensures root in old(u.nodes.known) && r.Err? ==> r.error != Incomplete
  {
    hide ListNode, ListCell, ShapeOk, NodeEdit.Valid, WellTagged;
    forall items, payload | Canonical(u.b, root, items, payload)
      ensures root.layout == ListLayout && |root.cells| > 0 && root.cells[0] == Meta(|items|, payload)
      ensures ShapeOk(root.cells, RootPos(|items|, u.b), u.b)
    {
      CanonicalRoot(u.b, items, payload);
    }
    if root.layout != ListLayout {
      return Err(BadNode);
    }
    var got := u.GetNode(root);
    if got.Err? {
      return Err(got.error);
    }
    var cells := got.value;
    var meta := ParseMetadata(cells[0]);
    if meta.Err? {
      return Err(meta.error);
    }
    var p := RootPosition(meta.value.count, u.b);
    var ok := CheckPosition(cells, p, u.b);
    if !ok {
      return Err(BadNode);
    }
    return Ok((cells, meta.value));
  }

  lemma CanonicalRoot(b: Radix, items: seq<Target>, payload: Option<Target>)
    requires |items| < TWO64
    ensures var root := ListRoot(b, items, payload);
      && root.layout == ListLayout && |root.cells| == Slots(b)
      && root.cells[0] == Meta(|items|, payload)
      && ShapeOk(root.cells, RootPos(|items|, b), b)
    ensures RootPos(|items|, b).Fits(b)
  {
    hide ListNode, ListCell, ShapeOk, Position.Fits, HeightOf;
    RootPositionIsLeast(|items|, b);
    CanonicalMeta(b, items, RootPos(|items|, b).height, Root(payload));
    CanonicalShape(b, items, RootPos(|items|, b).height, Root(payload));
  }

  lemma RootHeightMono(m: U64, n: U64, b: Radix)
    requires m <= n
    ensures RootPos(m, b).height <= RootPos(n, b).height
  {
    hide HeightOf;
    RootPositionIsLeast(m, b);
    RootPositionIsLeast(n, b);
    assert Position(m, RootPos(n, b).height, true).Fits(b);
  }

  // Appends a nonempty batch of defined targets. On a canonical root the result
  // is the canonical root of the concatenation, however many levels it grows.
  method AppendBatch(nodes: Workspace, root: Ref, targets: seq<Option<Target>>,
                     ghost items: seq<Target>, ghost payload: Option<Target>)
    returns (r: Result<(Ref, U64), Error>)
    requires nodes.Valid()
    modifies nodes
    ensures nodes.Valid() && nodes.known.Keys >= old(nodes.known.Keys)
    ensures r.Ok? ==> r.value.0 in nodes.known
    ensures r.Err? ==> nodes.written == old(nodes.written)
    ensures Canonical(nodes.b, root, items, payload) && root in old(nodes.known) ==>
      r == if targets == [] || |items| + |targets| >= TWO64 then Err(OutOfRange)
           else if None in targets then Err(Undefined)
           else Ok((ListRoot(nodes.b, items + Defined(targets), payload), |items|))
    ensures root in old(nodes.known) && r.Err? ==> r.error != Incomplete
  {
    hide ListNode, ListCell, ShapeOk, Position.Fits, Position.Used, HeightOf, WellTagged, NodeEdit.Valid, Defined;
    var b := nodes.b;
    var u := new NodeEdit(nodes);
    var loaded := Sequence(u, root);
    EditNodes(u);
    if loaded.Err? {
      return Err(loaded.error);
    }
    var (_, meta) := loaded.value;
    if Canonical(b, root, items, payload) {
      CanonicalRoot(b, items, payload);
    }
    if |targets| == 0 || |targets| >= TWO64 - meta.count {
      return Err(OutOfRange);
    }
    var checked := CheckTargets(targets);
    if checked.Err? {
      return Err(checked.error);
    }
    ghost var prefix := if Canonical(b, root, items, payload) then items else seq(meta.count, _ => []);
    var grown := Extend(u, root, meta, checked.value, prefix);
    EditNodes(u);
    if grown.Err? {
      return Err(grown.error);
    }
    var done := u.Finish(grown.value);
    return Ok((grown.value, meta.count));
  }

  method Extend(u: NodeEdit, root: Ref, meta: Metadata, batch: seq<Target>, ghost items: seq<Target>)
    returns (r: Result<Ref, Error>)
    requires u.Valid() && root in u.nodes.known && root.layout == ListLayout
    requires |items| == meta.count && batch != [] && meta.count + |batch| < TWO64
    modifies u, u.nodes, u.builder
    ensures u.Valid() && u.nodes.written == old(u.nodes.written)
    ensures u.nodes.known.Keys >= old(u.nodes.known.Keys)
    ensures r.Ok? ==> r.value in u.Avail()
    ensures root == ListRoot(u.b, items, meta.payload) ==> r == Ok(ListRoot(u.b, items + batch, meta.payload))
    ensures r.Err? ==> r.error != Incomplete
  {
    hide ListNode, HeightOf, NodeEdit.Valid, Position.Fits;
    var old_ := RootPosition(meta.count, u.b);
    var next := RootPosition(meta.count + |batch|, u.b);
    RootHeightMono(meta.count, meta.count + |batch|, u.b);
    RootPositionIsLeast(meta.count, u.b);
    RootPositionIsLeast(meta.count + |batch|, u.b);
    r := AppendNode(u, root, old_, next, Root(meta.payload), batch, items, Root(meta.payload));
  }

  method CheckTargets(targets: seq<Option<Target>>) returns (r: Result<seq<Target>, Error>)
    ensures r == if None in targets then Err(Undefined) else Ok(Defined(targets))
    ensures r.Err? ==> r.error != Incomplete
  {
    var items: seq<Target> := [];
    for i := 0 to |targets|
      invariant None !in targets[..i] && items == Defined(targets[..i])
    {
      if targets[i] == None {
        return Err(Undefined);
      }
      assert targets[..i + 1] == targets[..i] + [targets[i]];
      items := items + [targets[i].value];
    }
    assert targets[..|targets|] == targets;
    return Ok(items);
  }

  // The targets of a batch in which every one is defined.
  function Defined(targets: seq<Option<Target>>): (items: seq<Target>)
    requires None !in targets
    ensures |items| == |targets| && forall i :: 0 <= i < |items| ==> targets[i] == Some(items[i])
  {
    if targets == [] then [] else
      var last := |targets| - 1;
      assert targets[last] in targets;
      Defined(targets[..last]) + [targets[last].value]
  }

  // ---- Truncation ----

  lemma KeptCommittable(r: Ref, cell: Cell, avail: set<Ref>)
    requires WellTagged(r) && r.layout == ListLayout && Children(r) <= avail && cell in r.cells
    ensures Committable(cell, avail)
  {
  }

  // Cuts the canonical node of `all` at position `old_` to its first next.count
  // items. A descendant that becomes the root moves its content up by one slot.
  method TruncateNode(u: NodeEdit, ref: Ref, old_: Position, next: Position, kind: Kind,
                      ghost all: seq<Target>, ghost oldKind: Kind)
    returns (r: Result<Ref, Error>)
    requires u.Valid() && ref in u.nodes.known && ref.layout == ListLayout
    requires |all| == old_.count && next.count <= old_.count
    requires old_.root == oldKind.Root? && next.root == kind.Root? && (old_.root ==> next.root)
    requires old_.height == next.height && old_.Fits(u.b) && next.Fits(u.b)
    requires next.root ==> next != old_
    modifies u, u.nodes, u.builder
    ensures u.Valid() && u.nodes.written == old(u.nodes.written)
    ensures u.nodes.known.Keys >= old(u.nodes.known.Keys) && u.Avail() >= old(u.Avail())
    ensures r.Ok? ==> r.value.layout == ListLayout && r.value in u.Avail()
    ensures ref == ListNode(u.b, all, old_.height, oldKind) ==>
      r == Ok(ListNode(u.b, all[..next.count], next.height, kind))
    ensures r.Err? ==> r.error != Incomplete
    decreases next.height, 1
  {
    hide ListNode, ListCell, Position.Used, Position.Fits, Position.Child, ShapeOk, Span, Times, NodeEdit.Valid,
      Agree, Building, WellTagged;
    var b := u.b;
    ghost var kept := all[..next.count];
    if old_ == next {
      assert all == kept;
      return Ok(ref);
    }
    ghost var canonical := ref == ListNode(b, all, old_.height, oldKind);
    ghost var want := ListNode(b, kept, next.height, kind).cells;
    var got := u.GetNode(ref);
    var previous := got.value;
    CanonicalShape(b, all, old_.height, oldKind);
    var ok := CheckPosition(previous, old_, b);
    if !ok {
      return Err(BadNode);
    }
    CanonicalMeta(b, kept, next.height, kind);
    CanonicalPadding(b, kept, next, kind);
    OldDigits(next, old_, b);
    UsedFits(next, b);
    UsedFits(old_, b);
    var cells := seq(Slots(b), _ => Blank);
    if next.root {
      cells := cells[0 := Meta(next.count, kind.payload)];
    }
    ghost var end := next.Base() + next.Used(b);
    BlankBuilding(cells, next.Base(), end, u.Avail());
    AgreeRoot(cells, want, next.Base());
    for digit := 0 to next.Used(b)
      invariant u.Valid() && u.nodes.written == old(u.nodes.written)
      invariant u.nodes.known.Keys >= old(u.nodes.known.Keys) && u.Avail() >= old(u.Avail())
      invariant Children(ref) <= u.nodes.known.Keys
      invariant |cells| == Slots(b)
      invariant Building(cells, next.Base() + digit, end, u.Avail())
      invariant canonical ==> Agree(cells, want, next.Base() + digit)
    {
      ghost var small := u.Avail();
      var cell := TruncateDigit(u, ref, old_, next, digit, kind, all, oldKind);
      if cell.Err? {
        return Err(cell.error);
      }
      BuildingKeep(cells, next.Base() + digit, end, cell.value, small, u.Avail());
      AgreeNext(cells, want, next.Base() + digit, cell.value);
      cells := cells[next.Base() + digit := cell.value];
    }
    BuildingDone(cells, end, u.Avail());
    AgreeAll(cells, want, end);
    CommittableNode(cells, u.Avail());
    var node := u.Commit(ListLayout, cells);
    return Ok(node);
  }

  lemma BlankBuilding(cells: seq<Cell>, done: nat, end: nat, avail: set<Ref>)
    requires done <= end <= |cells|
    requires forall k :: 0 <= k < |cells| ==> cells[k] == Blank || (k < done && cells[k].Meta?)
    ensures Building(cells, done, end, avail)
  {
  }

  lemma BuildingKeep(cells: seq<Cell>, done: nat, end: nat, cell: Cell, small: set<Ref>, avail: set<Ref>)
    requires done < end && Committable(cell, avail)
    requires small <= avail && Building(cells, done, end, small)
    ensures Building(cells[done := cell], done + 1, end, avail)
  {
  }

  lemma SliceOfPrefix(all: seq<Target>, n: nat, start: nat, a: nat, c: nat)
    requires start + a <= n <= |all| && a <= c && start + c <= |all|
    ensures all[..n][start..start + a] == all[start..start + c][..a]
  {
  }

  // One content cell of the truncated node: kept as it is, or cut recursively
  // when the child's position changes.
  method TruncateDigit(u: NodeEdit, ref: Ref, old_: Position, next: Position, digit: nat, kind: Kind,
                       ghost all: seq<Target>, ghost oldKind: Kind)
    returns (r: Result<Cell, Error>)
    requires u.Valid() && ref in u.nodes.known && ref.layout == ListLayout
    requires WellTagged(ref) && Children(ref) <= u.nodes.known.Keys && ShapeOk(ref.cells, old_, u.b)
    requires |all| == old_.count && next.count <= old_.count
    requires old_.root == oldKind.Root? && next.root == kind.Root?
    requires old_.height == next.height && old_.Fits(u.b) && next.Fits(u.b)
    requires digit < next.Used(u.b)
    modifies u, u.nodes, u.builder
    ensures u.Valid() && u.nodes.written == old(u.nodes.written)
    ensures u.nodes.known.Keys >= old(u.nodes.known.Keys) && u.Avail() >= old(u.Avail())
    ensures r.Ok? ==> Committable(r.value, u.Avail())
    ensures next.Base() + digit < Slots(u.b)
    ensures ref == ListNode(u.b, all, old_.height, oldKind) ==>
      r == Ok(ListNode(u.b, all[..next.count], next.height, kind).cells[next.Base() + digit])
    ensures r.Err? ==> r.error != Incomplete
    decreases next.height, 0
  {
    hide ListNode, ListCell, Position.Used, Position.Fits, Position.Child, ShapeOk, Span, Times, NodeEdit.Valid,
      WellTagged;
    var b := u.b;
    ghost var kept := all[..next.count];
    OldDigits(next, old_, b);
    UsedFits(next, b);
    UsedFits(old_, b);
    ShapePadding(ref.cells, old_, b);
    var cell := ref.cells[old_.Base() + digit];
    KeptCommittable(ref, cell, u.Avail());
    if next.height == 0 {
      CanonicalCell(b, all, 0, oldKind, digit);
      CanonicalCell(b, kept, 0, kind, digit);
      LeafUsed(next, b);
      return Ok(cell);
    }
    CanonicalChild(b, all, old_, oldKind, digit);
    CanonicalChild(b, kept, next, kind, digit);
    var (oldChild, start) := old_.Child(digit, b);
    var nextChild := next.Child(digit, b).0;
    ghost var below := all[start..start + oldChild.count];
    SliceOfPrefix(all, next.count, start, nextChild.count, oldChild.count);
    if oldChild == nextChild {
      assert below[..nextChild.count] == below;
      return Ok(cell);
    }
    CanonicalMeta(b, below, oldChild.height, Inner);
    var child := ParseChild(cell, ref);
    if child.Err? {
      return Err(child.error);
    }
    var cut := TruncateNode(u, child.value, oldChild, nextChild, Inner, below, Inner);
    if cut.Err? {
      return Err(cut.error);
    }
    return Ok(Child(cut.value));
  }

  // A root's first subtree holds every index a lower root can hold.
  lemma FirstSubtree(count: U64, old_: Position, h: nat, b: Radix)
    requires 0 < count <= old_.count && Position(count, h, true).Fits(b) && h < old_.height
    ensures 0 < old_.Used(b) && count <= Span(b, old_.height)
  {
    OldDigits(Position(count, h, true), Position(count, old_.height, false), b) by {
      SpanMono(b, h, old_.height);
      SlotsCover(b, old_.height, count, h);
    }
    DigitUsed(old_, b, 0);
    TimesZero(Span(b, old_.height));
  }

  lemma SlotsCover(b: Radix, g: nat, count: U64, h: nat)
    requires Position(count, h, true).Fits(b) && h < g
    ensures count <= Span(b, g)
  {
    TimesMono(Slots(b) - 1, Slots(b), Span(b, h));
    SpanMono(b, h + 1, g);
  }

  // Removes a suffix. On a canonical root the result is the canonical root of
  // the prefix with the payload kept, however many levels disappear.
  method Truncate(nodes: Workspace, root: Ref, count: U64, ghost items: seq<Target>, ghost payload: Option<Target>)
    returns (r: Result<Ref, Error>)
    requires nodes.Valid()
    modifies nodes
    ensures nodes.Valid() && nodes.known.Keys >= old(nodes.known.Keys)
    ensures r.Ok? ==> r.value in nodes.known
    ensures r.Err? ==> nodes.written == old(nodes.written)
    ensures Canonical(nodes.b, root, items, payload) && root in old(nodes.known) ==>
      r == if count > |items| then Err(OutOfRange) else Ok(ListRoot(nodes.b, items[..count], payload))
    ensures root in old(nodes.known) && r.Err? ==> r.error != Incomplete
  {
    hide ListNode, ListCell, ShapeOk, Position.Fits, Position.Used, HeightOf, WellTagged, NodeEdit.Valid,
      Position.Child,
      Position.SlotOf, Workspace.Valid;
    var b := nodes.b;
    var u := new NodeEdit(nodes);
    var loaded := Sequence(u, root);
    EditNodes(u);
    if loaded.Err? {
      return Err(loaded.error);
    }
    var (_, meta) := loaded.value;
    ghost var canonical := Canonical(b, root, items, payload);
    if canonical {
      CanonicalRoot(b, items, payload);
    }
    if count > meta.count {
      return Err(OutOfRange);
    }
    if count == meta.count {
      assert canonical ==> items[..count] == items;
      return Ok(root);
    }
    var old_ := RootPosition(meta.count, b);
    var next := RootPosition(count, b);
    RootHeightMono(count, meta.count, b);
    RootPositionIsLeast(meta.count, b);
    RootPositionIsLeast(count, b);
    var result: Ref;
    if count == 0 {
      result := u.BuildList([], next, Root(meta.payload));
    } else {
      ghost var all := if canonical then items else seq(meta.count, _ => []);
      var found, below, kind := Descend(u, root, old_, next, all, Root(meta.payload));
      EditNodes(u);
      if found.Err? {
        return Err(found.error);
      }
      var cut := TruncateNode(u, found.value.0, found.value.1, next, Root(meta.payload), below, kind);
      EditNodes(u);
      if cut.Err? {
        return Err(cut.error);
      }
      result := cut.value;
    }
    var done := u.Finish(result);
    return Ok(result);
  }

  // Follows the first child down to the level of the shorter list's root.
  method Descend(u: NodeEdit, root: Ref, from: Position, next: Position, ghost all: seq<Target>, ghost allKind: Kind)
    returns (r: Result<(Ref, Position), Error>, ghost below: seq<Target>, ghost kind: Kind)
    requires u.Valid() && root in u.nodes.known && root.layout == ListLayout
    requires |all| == from.count && from.root && allKind.Root? && from.Fits(u.b)
    requires next.root && next.Fits(u.b) && 0 < next.count < from.count && next.height <= from.height
    modifies u, u.nodes
    ensures u.Valid() && u.nodes.written == old(u.nodes.written)
    ensures u.nodes.known.Keys >= old(u.nodes.known.Keys)
    ensures root == ListNode(u.b, all, from.height, allKind) ==> r.Ok?
    ensures r.Ok? ==> var (ref, p) := r.value;
      && ref in u.nodes.known && ref.layout == ListLayout && p.height == next.height && p.Fits(u.b)
      && |below| == p.count >= next.count && p.root == kind.Root? && (p.root ==> next.count < p.count)
      && (root == ListNode(u.b, all, from.height, allKind) ==>
          ref == ListNode(u.b, below, p.height, kind) && below[..next.count] == all[..next.count])
    ensures r.Err? ==> r.error != Incomplete
  {
    hide ListNode, ListCell, ShapeOk, Position.Fits, Position.Used, Position.Child, HeightOf, WellTagged, Span, Times,
      NodeEdit.Valid;
    var b, count := u.b, next.count;
    ghost var canonical := root == ListNode(b, all, from.height, allKind);
    var old_, ref := from, root;
    below, kind := all, allKind;
    while old_.height > next.height
      invariant u.Valid() && u.nodes.written == old(u.nodes.written) && ref in u.nodes.known
      invariant u.nodes.known.Keys >= old(u.nodes.known.Keys)
      invariant ref.layout == ListLayout && |below| == old_.count && count <= old_.count
      invariant old_.root == kind.Root? && old_.Fits(b) && old_.height >= next.height
      invariant old_.root ==> count < old_.count
      invariant canonical ==> ref == ListNode(b, below, old_.height, kind) && below[..count] == all[..count]
      decreases old_.height
    {
      FirstSubtree(count, old_, next.height, b);
      CanonicalChild(b, below, old_, kind, 0);
      CanonicalShape(b, below, old_.height, kind);
      var got := u.GetNode(ref);
      var ok := CheckPosition(got.value, old_, b);
      if !ok {
        return Err(BadNode), below, kind;
      }
      ShapePadding(ref.cells, old_, b);
      var (first, start) := old_.Child(0, b);
      TimesZero(Span(b, old_.height));
      CanonicalMeta(b, below[..first.count], old_.height - 1, Inner);
      var child := ParseChild(got.value[old_.Base()], ref);
      if child.Err? {
        return Err(child.error), below, kind;
      }
      ref := child.value;
      old_ := first;
      assert below[..first.count][..count] == below[..count];
      below, kind := below[..first.count], Inner;
    }
    return Ok((ref, old_)), below, kind;
  }

  // Replaces the root's opaque payload reference.
  method SetPayload(nodes: Workspace, root: Ref, payload: Option<Target>,
                    ghost items: seq<Target>, ghost before: Option<Target>)
    returns (r: Result<Ref, Error>)
    requires nodes.Valid()
    modifies nodes
    ensures nodes.Valid() && nodes.known.Keys >= old(nodes.known.Keys)
    ensures r.Ok? ==> r.value in nodes.known
    ensures r.Err? ==> nodes.written == old(nodes.written)
    ensures Canonical(nodes.b, root, items, before) && root in old(nodes.known) ==>
      r == Ok(ListRoot(nodes.b, items, payload))
    ensures root in old(nodes.known) && r.Err? ==> r.error != Incomplete
  {
    hide ListNode, ShapeOk, Position.Fits, Position.Used, HeightOf, NodeEdit.Valid, WellTagged;
    var u := new NodeEdit(nodes);
    var loaded := Sequence(u, root);
    EditNodes(u);
    if loaded.Err? {
      return Err(loaded.error);
    }
    var (cells, meta) := loaded.value;
    if Canonical(nodes.b, root, items, before) {
      CanonicalRoot(nodes.b, items, before);
      PayloadOnly(nodes.b, items, before, payload);
    }
    if meta.payload == payload {
      return Ok(root);
    }
    cells := cells[0 := Meta(meta.count, payload)];
    RetagRoot(root, Meta(meta.count, payload), cells);
    var result := u.Commit(ListLayout, cells);
    var done := u.Finish(result);
    return Ok(result);
  }

  lemma RetagRoot(root: Ref, meta: Cell, cells: seq<Cell>)
    requires meta.Meta? && WellTagged(root) && |root.cells| > 0 && cells == root.cells[0 := meta]
    ensures WellTagged(Ref(root.layout, cells))
    ensures forall k :: 0 <= k < |cells| && cells[k].Child? ==> cells[k].ref in Children(root)
  {
    assert forall k :: 0 <= k < |cells| ==> cells[k] == meta || cells[k] in root.cells;
  }

  // The payload is recorded in the root's slot zero and nowhere else.
  lemma PayloadOnly(b: Radix, items: seq<Target>, before: Option<Target>, after: Option<Target>)
    requires |items| < TWO64
    ensures ListRoot(b, items, before).cells[0 := Meta(|items|, after)] == ListRoot(b, items, after).cells
    ensures ListRoot(b, items, after).layout == ListLayout
  {
    var h := RootPos(|items|, b).height;
    var x, y := ListNode(b, items, h, Root(before)).cells, ListNode(b, items, h, Root(after)).cells;
    CanonicalMeta(b, items, h, Root(after));
    forall k | 0 <= k < Slots(b)
      ensures x[0 := Meta(|items|, after)][k] == y[k]
    {
      if k > 0 {
        SlotPayload(b, items, h, before, after, k);
      }
    }
  }

  lemma SlotPayload(b: Radix, items: seq<Target>, h: nat, before: Option<Target>, after: Option<Target>, k: nat)
    requires |items| < TWO64 && k > 0
    ensures ListCell(b, items, h, Root(before), k) == ListCell(b, items, h, Root(after), k)
  {
  }
}
